/**
  What `get` answers (crates/catalyrst-bvimposters/src/supply.rs:38-131): the answer of a call is decided by what
  its own lookups, its download, its zip check and its rename showed, in every interleaving.
 */
module Answers {
  import opened Wrappers
  import opened Keys
  import opened Supply

  /** The last thing a call has seen that its answer can depend on. */
  datatype Seen =
    | Nothing
    | InStore(body: Body)
    | Downloaded(body: Body)
    | Renamed(body: Body)
    | NoSuchArchive
    | Broken
    | CallerGone

  /** What one step of a call for `k` shows it, given the store before the step. */
  function Shows(k: ImposterKey, store: map<ImposterKey, Body>, verified: Verified, seen: Seen, m: Move): Seen {
    match m
    case LookUp => if k in store then InStore(store[k]) else seen
    case LookAgain => if k in store then InStore(store[k]) else seen
    case FetchDone(Got(b)) => if (k, b) in verified then Downloaded(b) else Broken
    case FetchDone(NotFound) => NoSuchArchive
    case FetchDone(Errored) => Broken
    case Written(ok) => if ok then seen else Broken
    case RenameRuns(ok) => if ok && seen.Downloaded? then Renamed(seen.body) else Broken
    case Cancel => CallerGone
    case _ => seen
  }

  /** What call `id` has seen over a run. */
  function Evidence(store: map<ImposterKey, Body>, verified: Verified, acts: seq<Action>, id: TaskId): Seen {
    if acts == [] then Nothing
    else
      var before, act := acts[..|acts| - 1], acts[|acts| - 1];
      var s, seen := Run(Start(store), verified, before), Evidence(store, verified, before, id);
      if act.Advance? && act.task == id && CanMove(s, id, act.move)
      then Shows(s.tasks[id].key, s.store, verified, seen, act.move) else seen
  }

  /** The answer that what was seen calls for. */
  predicate Answers(result: Served, seen: Seen) {
    match seen
    case InStore(b) => result == Hit(b, Store)
    case Renamed(b) => result == Hit(b, Cdn)
    case NoSuchArchive => result == Miss
    case Broken => result == Failed
    case _ => false
  }

  /** How far a call that has seen `seen` can be. */
  predicate Follows(p: Phase, seen: Seen) {
    match p
    case Looking => seen == Nothing
    case Asking => seen == Nothing
    case Waiting(_) => seen == Nothing
    case Holding(_) => seen == Nothing
    case Fetching(_) => seen == Nothing
    case Writing(_, b) => seen == Downloaded(b)
    case Renaming(_, b) => seen == Downloaded(b)
    case Landed(_, b) => seen == Renamed(b)
    case Unlocking(_, result) => Answers(result, seen)
    case Releasing(_, result) => Answers(result, seen)
    case Finished(result) => Answers(result, seen)
    case Dropping(_) => seen == CallerGone
    case Cancelled => seen == CallerGone
  }

  predicate TaskFollows(s: Sys, id: TaskId, seen: Seen) {
    if id in s.tasks then Follows(s.tasks[id].phase, seen) else seen == Nothing
  }

  predicate PhaseOnly(m: Move) {
    m.LookUp? || m.LookAgain? || m.FetchDone? || m.Written? || m.Resume?
  }

  predicate Leaves(m: Move) {
    m.Release? || m.Cancel? || m.DropHandle?
  }

  lemma PhaseMoveFollows(s: Sys, verified: Verified, id: TaskId, m: Move, seen: Seen)
    requires CanMove(s, id, m) && PhaseOnly(m) && Follows(s.tasks[id].phase, seen)
    ensures TaskFollows(MoveTask(s, verified, id, m), id, Shows(s.tasks[id].key, s.store, verified, seen, m))
  {
  }

  lemma LockMoveFollows(s: Sys, verified: Verified, id: TaskId, m: Move, seen: Seen)
    requires CanMove(s, id, m) && !PhaseOnly(m) && !Leaves(m) && Follows(s.tasks[id].phase, seen)
    ensures TaskFollows(MoveTask(s, verified, id, m), id, Shows(s.tasks[id].key, s.store, verified, seen, m))
  {
  }

  lemma LeavingFollows(s: Sys, verified: Verified, id: TaskId, m: Move, seen: Seen)
    requires CanMove(s, id, m) && Leaves(m) && Follows(s.tasks[id].phase, seen)
    ensures TaskFollows(MoveTask(s, verified, id, m), id, Shows(s.tasks[id].key, s.store, verified, seen, m))
  {
  }

  lemma MoveFollows(s: Sys, verified: Verified, id: TaskId, m: Move, seen: Seen)
    requires CanMove(s, id, m) && Follows(s.tasks[id].phase, seen)
    ensures TaskFollows(MoveTask(s, verified, id, m), id, Shows(s.tasks[id].key, s.store, verified, seen, m))
  {
    if PhaseOnly(m) {
      PhaseMoveFollows(s, verified, id, m, seen);
    } else if Leaves(m) {
      LeavingFollows(s, verified, id, m, seen);
    } else {
      LockMoveFollows(s, verified, id, m, seen);
    }
  }

  lemma OthersKept(s: Sys, verified: Verified, act: Action, id: TaskId)
    requires Enabled(s, act) && !(act.Advance? && act.task == id)
    ensures var r := Perform(s, verified, act);
      && (id in s.tasks ==> id in r.tasks && r.tasks[id] == s.tasks[id])
      && (id in r.tasks && id !in s.tasks ==> r.tasks[id].phase == Looking)
  {
    if act.Advance? {
      MoveHasFrame(s, verified, act.task, act.move);
      FrameKeepsOthers(s, MoveTask(s, verified, act.task, act.move), act.task, act.move, id);
    }
  }

  lemma FrameKeepsOthers(s: Sys, r: Sys, mover: TaskId, m: Move, id: TaskId)
    requires MoveFrame(s, r, mover, m) && id != mover
    ensures id in s.tasks <==> id in r.tasks
    ensures id in s.tasks ==> r.tasks[id] == s.tasks[id]
  {
  }

  /** In every run, what a call will answer or has answered is what it has seen calls for. */
  lemma {:induction false} AnswerFollowsWhatWasSeen(store: map<ImposterKey, Body>, verified: Verified,
                                                    acts: seq<Action>, id: TaskId)
    ensures TaskFollows(Run(Start(store), verified, acts), id, Evidence(store, verified, acts, id))
  {
    if acts != [] {
      var before, act := acts[..|acts| - 1], acts[|acts| - 1];
      var s, seen := Run(Start(store), verified, before), Evidence(store, verified, before, id);
      AnswerFollowsWhatWasSeen(store, verified, before, id);
      if Enabled(s, act) {
        if act.Advance? && act.task == id {
          MoveFollows(s, verified, id, act.move, seen);
        } else {
          OthersKept(s, verified, act, id);
        }
      }
    }
  }

  // ----- the answer in terms of the steps of the run -----

  function At(store: map<ImposterKey, Body>, verified: Verified, acts: seq<Action>, i: nat): Sys
    requires i <= |acts|
  {
    Run(Start(store), verified, acts[..i])
  }

  /** The `i`-th action of the run was step `m` of call `id`. */
  predicate Did(store: map<ImposterKey, Body>, verified: Verified, acts: seq<Action>, id: TaskId, i: nat, m: Move) {
    i < |acts| && acts[i] == Advance(id, m) && CanMove(At(store, verified, acts, i), id, m)
  }

  predicate FoundStored(s: Sys, id: TaskId, m: Move, b: Body)
    requires id in s.tasks
  {
    (m.LookUp? || m.LookAgain?) && s.tasks[id].key in s.store && s.store[s.tasks[id].key] == b
  }

  /** The download errored or failed the zip check, or the write or the rename failed. */
  predicate WentWrong(s: Sys, verified: Verified, id: TaskId, m: Move)
    requires id in s.tasks
  {
    || m == FetchDone(Errored) || m == Written(false) || m == RenameRuns(false)
    || (m.FetchDone? && m.fetched.Got? && (s.tasks[id].key, m.fetched.body) !in verified)
  }

  predicate CausedBy(s: Sys, verified: Verified, id: TaskId, m: Move, result: Served)
    requires id in s.tasks
  {
    match result
    case Hit(b, Store) => FoundStored(s, id, m, b)
    case Hit(b, Cdn) => m == RenameRuns(true) && s.tasks[id].phase.Renaming? && s.tasks[id].phase.body == b
    case Miss => m == FetchDone(NotFound)
    case Failed => WentWrong(s, verified, id, m)
  }

  ghost predicate Caused(store: map<ImposterKey, Body>, verified: Verified, acts: seq<Action>, id: TaskId,
                         result: Served)
  {
    exists i: nat, m :: Did(store, verified, acts, id, i, m) &&
                   CausedBy(At(store, verified, acts, i), verified, id, m, result)
  }

  lemma ShownIsCaused(s: Sys, verified: Verified, id: TaskId, m: Move, seen: Seen, result: Served)
    requires CanMove(s, id, m) && Follows(s.tasks[id].phase, seen) && !Answers(result, seen)
    ensures Answers(result, Shows(s.tasks[id].key, s.store, verified, seen, m)) <==>
            CausedBy(s, verified, id, m, result)
  {
  }

  lemma AnswerStands(s: Sys, verified: Verified, id: TaskId, m: Move, seen: Seen, result: Served)
    requires CanMove(s, id, m) && Follows(s.tasks[id].phase, seen)
    requires Answers(result, seen) || seen == CallerGone
    ensures var next := Shows(s.tasks[id].key, s.store, verified, seen, m);
      Answers(result, next) || next == CallerGone
    ensures !CausedBy(s, verified, id, m, result)
  {
  }

  lemma OneAnswer(r: Served, result: Served, seen: Seen, caused: bool)
    requires Answers(result, seen)
    requires Answers(r, seen) ==> caused
    requires caused ==> Answers(r, seen) || seen == CallerGone
    ensures caused <==> r == result
  {
  }

  lemma CausedInLonger(store: map<ImposterKey, Body>, verified: Verified, acts: seq<Action>, id: TaskId,
                       result: Served)
    requires acts != [] && Caused(store, verified, acts[..|acts| - 1], id, result)
    ensures Caused(store, verified, acts, id, result)
  {
    var before := acts[..|acts| - 1];
    var i: nat, m :| Did(store, verified, before, id, i, m) &&
                CausedBy(At(store, verified, before, i), verified, id, m, result);
    assert before[..i] == acts[..i];
    assert Did(store, verified, acts, id, i, m);
  }

  /** A call's answer so far has one of the causes listed, and a call that had such a cause has that answer. */
  lemma {:induction false} CausedIffAnswered(store: map<ImposterKey, Body>, verified: Verified, acts: seq<Action>,
                                             id: TaskId, result: Served)
    ensures var seen := Evidence(store, verified, acts, id);
      && (Answers(result, seen) ==> Caused(store, verified, acts, id, result))
      && (Caused(store, verified, acts, id, result) ==> Answers(result, seen) || seen == CallerGone)
  {
    if acts != [] {
      var before, act := acts[..|acts| - 1], acts[|acts| - 1];
      var s, seen := Run(Start(store), verified, before), Evidence(store, verified, before, id);
      CausedIffAnswered(store, verified, before, id, result);
      AnswerFollowsWhatWasSeen(store, verified, before, id);
      LastStepCauses(store, verified, acts, id, result);
      if act.Advance? && act.task == id && CanMove(s, id, act.move) {
        if Answers(result, seen) || seen == CallerGone {
          AnswerStands(s, verified, id, act.move, seen, result);
        } else {
          ShownIsCaused(s, verified, id, act.move, seen, result);
        }
      }
    }
  }

  lemma LastStepCauses(store: map<ImposterKey, Body>, verified: Verified, acts: seq<Action>, id: TaskId,
                       result: Served)
    requires acts != []
    ensures var before, act := acts[..|acts| - 1], acts[|acts| - 1];
      var s := Run(Start(store), verified, before);
      Caused(store, verified, acts, id, result) <==>
        Caused(store, verified, before, id, result) ||
        (act.Advance? && act.task == id && CanMove(s, id, act.move) && CausedBy(s, verified, id, act.move, result))
  {
    var before, act := acts[..|acts| - 1], acts[|acts| - 1];
    var s := Run(Start(store), verified, before);
    assert At(store, verified, acts, |acts| - 1) == s;
    if Caused(store, verified, before, id, result) {
      CausedInLonger(store, verified, acts, id, result);
    } else if Caused(store, verified, acts, id, result) {
      var i: nat, m :| Did(store, verified, acts, id, i, m) &&
                  CausedBy(At(store, verified, acts, i), verified, id, m, result);
      if i < |before| {
        assert before[..i] == acts[..i];
        assert Did(store, verified, before, id, i, m);
      }
    } else if act.Advance? && act.task == id && CanMove(s, id, act.move) {
      assert Did(store, verified, acts, id, |acts| - 1, act.move);
    }
  }

  /**
    What `get` answers: the stored archive exactly when one of its lookups found it, the downloaded one exactly when
    its rename succeeded, a miss exactly when the download said there is none, and otherwise a failure.
   */
  lemma AnsweredExactly(store: map<ImposterKey, Body>, verified: Verified, acts: seq<Action>, id: TaskId, r: Served)
    requires var s := Run(Start(store), verified, acts); id in s.tasks && s.tasks[id].phase.Finished?
    ensures Caused(store, verified, acts, id, r) <==>
            Run(Start(store), verified, acts).tasks[id].phase == Finished(r)
  {
    var s, seen := Run(Start(store), verified, acts), Evidence(store, verified, acts, id);
    AnswerFollowsWhatWasSeen(store, verified, acts, id);
    CausedIffAnswered(store, verified, acts, id, r);
    FinishedAnswers(s, id, seen);
    OneAnswer(r, s.tasks[id].phase.result, seen, Caused(store, verified, acts, id, r));
  }

  lemma FinishedAnswers(s: Sys, id: TaskId, seen: Seen)
    requires TaskFollows(s, id, seen) && id in s.tasks && s.tasks[id].phase.Finished?
    ensures Answers(s.tasks[id].phase.result, seen)
  {
  }

  ghost predicate Fetches(store: map<ImposterKey, Body>, verified: Verified, acts: seq<Action>, id: TaskId, b: Body) {
    exists i: nat :: Did(store, verified, acts, id, i, FetchDone(Got(b)))
  }

  /** What a call renames into the store is what its download gave, and it passed the zip check. */
  lemma RenamedWasDownloaded(store: map<ImposterKey, Body>, verified: Verified, acts: seq<Action>, id: TaskId,
                             b: Body)
    requires var s := Run(Start(store), verified, acts);
      id in s.tasks && s.tasks[id].phase.Renaming? && s.tasks[id].phase.body == b
    ensures (Run(Start(store), verified, acts).tasks[id].key, b) in verified
    ensures Fetches(store, verified, acts, id, b)
  {
    AnswerFollowsWhatWasSeen(store, verified, acts, id);
    DownloadSeen(store, verified, acts, id, b);
  }

  lemma {:induction false} DownloadSeen(store: map<ImposterKey, Body>, verified: Verified, acts: seq<Action>,
                                        id: TaskId, b: Body)
    requires Evidence(store, verified, acts, id) == Downloaded(b)
    ensures var s := Run(Start(store), verified, acts); id in s.tasks && (s.tasks[id].key, b) in verified
    ensures Fetches(store, verified, acts, id, b)
  {
    if acts != [] {
      var before, act := acts[..|acts| - 1], acts[|acts| - 1];
      var s := Run(Start(store), verified, before);
      if Evidence(store, verified, before, id) == Downloaded(b) {
        DownloadSeen(store, verified, before, id, b);
        FetchesInLonger(store, verified, acts, id, b);
      } else {
        FetchesLast(store, verified, acts, id, b);
      }
      StepKeepsKey(s, verified, act, id);
    }
  }

  lemma FetchesInLonger(store: map<ImposterKey, Body>, verified: Verified, acts: seq<Action>, id: TaskId, b: Body)
    requires acts != [] && Fetches(store, verified, acts[..|acts| - 1], id, b)
    ensures Fetches(store, verified, acts, id, b)
  {
    var before := acts[..|acts| - 1];
    var i: nat :| Did(store, verified, before, id, i, FetchDone(Got(b)));
    assert before[..i] == acts[..i];
    assert Did(store, verified, acts, id, i, FetchDone(Got(b)));
  }

  lemma FetchesLast(store: map<ImposterKey, Body>, verified: Verified, acts: seq<Action>, id: TaskId, b: Body)
    requires acts != [] && Evidence(store, verified, acts, id) == Downloaded(b)
    requires Evidence(store, verified, acts[..|acts| - 1], id) != Downloaded(b)
    ensures Fetches(store, verified, acts, id, b)
    ensures var s := Run(Start(store), verified, acts[..|acts| - 1]);
      id in s.tasks && (s.tasks[id].key, b) in verified
  {
    assert Did(store, verified, acts, id, |acts| - 1, FetchDone(Got(b)));
  }

  lemma StepKeepsKey(s: Sys, verified: Verified, act: Action, id: TaskId)
    requires id in s.tasks
    ensures var r := Step(s, verified, act); id in r.tasks && r.tasks[id].key == s.tasks[id].key
  {
    if Enabled(s, act) && act.Advance? {
      MoveHasFrame(s, verified, act.task, act.move);
    }
  }
}
