/**
  Single-flight fetching of imposter archives (crates/catalyrst-bvimposters/src/supply.rs): every call of
  `get` is a task whose steps end at its await points, so any interleaving and any cancellation is a run.
  A rename that has been handed to the blocking pool still runs after its task was cancelled.
 */
module Supply {
  import opened Wrappers
  import opened Keys

  type Body = seq<int>
  type TaskId = nat
  type LockId = nat

  datatype Source = Store | Cdn

  datatype Served = Hit(body: Body, source: Source) | Miss | Failed

  datatype Fetched = Got(body: Body) | NotFound | Errored

  datatype Phase =
    | Looking
    | Asking
    | Waiting(lock: LockId)
    | Holding(lock: LockId)
    | Fetching(lock: LockId)
    | Writing(lock: LockId, body: Body)
    | Renaming(lock: LockId, body: Body)
    | Landed(lock: LockId, body: Body)
    | Unlocking(lock: LockId, result: Served)
    | Releasing(lock: LockId, result: Served)
    | Dropping(lock: LockId)
    | Finished(result: Served)
    | Cancelled

  datatype Task = Task(key: ImposterKey, phase: Phase)

  datatype Mark =
    | LandedBy(key: ImposterKey)
    | LandedLate(key: ImposterKey)
    | Orphaned(key: ImposterKey)
    | Removed(key: ImposterKey)

  datatype Dropped = ByRelease | ByCancel

  /**
    `locks` is the shared lock map, `held` the mutexes locked and by whom, `orphans` the renames still in
    flight of cancelled tasks. `log` counts what happened and `lastDrop` who last let go of a lock of a key.
   */
  datatype Sys = Sys(
    tasks: map<TaskId, Task>,
    locks: map<ImposterKey, LockId>,
    nextLock: LockId,
    held: map<LockId, TaskId>,
    store: map<ImposterKey, Body>,
    orphans: map<TaskId, (ImposterKey, Body)>,
    log: multiset<Mark>,
    lastDrop: map<ImposterKey, Dropped>)

  /** The archives that pass the zip check for their key. */
  type Verified = set<(ImposterKey, Body)>

  /** What a task does at one of its steps. */
  datatype Move =
    | LookUp
    | GetLock
    | Acquire
    | LookAgain
    | FetchDone(fetched: Fetched)
    | Written(ok: bool)
    | RenameRuns(renamed: bool)
    | Resume
    | Unlock
    | Release
    | Cancel
    | DropHandle

  /** `Install` is any other writer of the store: the harvest of a bake, or seeding. */
  datatype Action =
    | Begin(id: TaskId, key: ImposterKey)
    | Advance(task: TaskId, move: Move)
    | OrphanRuns(orphan: TaskId, ok: bool)
    | Remove(gone: ImposterKey)
    | Install(key: ImposterKey, body: Body)

  function Start(store: map<ImposterKey, Body>): Sys {
    Sys(map[], map[], 0, map[], store, map[], multiset{}, map[])
  }

  // ----- handles -----

  predicate HasHandle(p: Phase) {
    !p.Looking? && !p.Asking? && !p.Finished? && !p.Cancelled?
  }

  /** Phases in which the task owns the mutex guard. */
  predicate InSection(p: Phase) {
    p.Holding? || p.Fetching? || p.Writing? || p.Renaming? || p.Landed? || p.Unlocking?
  }

  /** Phases after the second store lookup missed and before anything landed. */
  predicate PastMiss(p: Phase) {
    p.Fetching? || p.Writing? || p.Renaming?
  }

  /** Phases that end in an await, where the caller can drop the future. */
  predicate AtAwait(p: Phase) {
    p.Looking? || p.Waiting? || p.Holding? || p.Fetching? || p.Writing? || p.Renaming? || p.Landed?
  }

  function Holders(s: Sys, l: LockId): set<TaskId> {
    set t | t in s.tasks && HasHandle(s.tasks[t].phase) && s.tasks[t].phase.lock == l
  }

  function MapRefs(s: Sys, l: LockId): set<ImposterKey> {
    set k | k in s.locks && s.locks[k] == l
  }

  /** The reference count of a lock: its handles in tasks plus its entries in the map. */
  function StrongCount(s: Sys, l: LockId): nat {
    |Holders(s, l)| + |MapRefs(s, l)|
  }

  // ----- steps -----

  function SetPhase(s: Sys, id: TaskId, p: Phase): Sys
    requires id in s.tasks
  {
    s.(tasks := s.tasks[id := s.tasks[id].(phase := p)])
  }

  predicate CanMove(s: Sys, id: TaskId, m: Move) {
    id in s.tasks &&
    var p := s.tasks[id].phase;
    match m
    case LookUp => p.Looking?
    case GetLock => p.Asking?
    case Acquire => p.Waiting? && p.lock !in s.held
    case LookAgain => p.Holding?
    case FetchDone(_) => p.Fetching?
    case Written(_) => p.Writing?
    case RenameRuns(_) => p.Renaming?
    case Resume => p.Landed?
    case Unlock => p.Unlocking?
    case Release => p.Releasing?
    case Cancel => AtAwait(p)
    case DropHandle => p.Dropping?
  }

  predicate Enabled(s: Sys, act: Action) {
    match act
    case Begin(id, _) => id !in s.tasks
    case Advance(id, m) => CanMove(s, id, m)
    case OrphanRuns(id, _) => id in s.orphans
    case Remove(k) => k in s.store
    case Install(_, _) => true
  }

  function LockOf(s: Sys, k: ImposterKey): LockId {
    if k in s.locks then s.locks[k] else s.nextLock
  }

  /** `s` once `k` has an entry in the lock map. */
  function WithLock(s: Sys, k: ImposterKey): Sys {
    if k in s.locks then s else s.(locks := s.locks[k := s.nextLock], nextLock := s.nextLock + 1)
  }

  /** `lock_for`: the lock of the map entry, which is created if absent. */
  function LockFor(s: Sys, id: TaskId): Sys
    requires id in s.tasks
  {
    SetPhase(WithLock(s, s.tasks[id].key), id, Waiting(LockOf(s, s.tasks[id].key)))
  }

  /** `release`: let go of the handle, then drop the map entry if nothing else refers to its lock. */
  function ReleaseLock(s: Sys, id: TaskId, result: Served): Sys
    requires id in s.tasks
  {
    var k := s.tasks[id].key;
    var r := SetPhase(s, id, Finished(result)).(lastDrop := s.lastDrop[k := ByRelease]);
    if k in r.locks && StrongCount(r, r.locks[k]) == 1 then r.(locks := r.locks - {k}) else r
  }

  function CancelTask(s: Sys, id: TaskId): Sys
    requires id in s.tasks && AtAwait(s.tasks[id].phase)
  {
    var k, p := s.tasks[id].key, s.tasks[id].phase;
    s.(tasks := s.tasks[id := Task(k, if p.Looking? then Cancelled else Dropping(p.lock))],
       held := if InSection(p) then s.held - {p.lock} else s.held,
       orphans := if p.Renaming? then s.orphans[id := (k, p.body)] else s.orphans,
       log := if p.Renaming? then s.log + multiset{Orphaned(k)} else s.log)
  }

  /** The phase after a move that changes nothing else. */
  function NextPhase(k: ImposterKey, p: Phase, store: map<ImposterKey, Body>, verified: Verified, m: Move): Phase
    requires (m.LookUp? && p.Looking?) || (m.LookAgain? && p.Holding?) || (m.FetchDone? && p.Fetching?)
          || (m.Written? && p.Writing?) || (m.Resume? && p.Landed?)
  {
    match m
    case LookUp => if k in store then Finished(Hit(store[k], Store)) else Asking
    case LookAgain => if k in store then Unlocking(p.lock, Hit(store[k], Store)) else Fetching(p.lock)
    case FetchDone(Got(b)) => if (k, b) in verified then Writing(p.lock, b) else Unlocking(p.lock, Failed)
    case FetchDone(NotFound) => Unlocking(p.lock, Miss)
    case FetchDone(Errored) => Unlocking(p.lock, Failed)
    case Written(ok) => if ok then Renaming(p.lock, p.body) else Unlocking(p.lock, Failed)
    case Resume => Unlocking(p.lock, Hit(p.body, Cdn))
  }

  function RunRename(s: Sys, id: TaskId, ok: bool): Sys
    requires id in s.tasks && s.tasks[id].phase.Renaming?
  {
    var k, p := s.tasks[id].key, s.tasks[id].phase;
    if ok then
      SetPhase(s.(store := s.store[k := p.body], log := s.log + multiset{LandedBy(k)}), id, Landed(p.lock, p.body))
    else SetPhase(s, id, Unlocking(p.lock, Failed))
  }

  function MoveTask(s: Sys, verified: Verified, id: TaskId, m: Move): Sys
    requires CanMove(s, id, m)
  {
    var k, p := s.tasks[id].key, s.tasks[id].phase;
    match m
    case GetLock => LockFor(s, id)
    case Acquire => SetPhase(s.(held := s.held[p.lock := id]), id, Holding(p.lock))
    case RenameRuns(ok) => RunRename(s, id, ok)
    case Unlock => SetPhase(s.(held := s.held - {p.lock}), id, Releasing(p.lock, p.result))
    case Release => ReleaseLock(s, id, p.result)
    case Cancel => CancelTask(s, id)
    case DropHandle => SetPhase(s, id, Cancelled).(lastDrop := s.lastDrop[k := ByCancel])
    case _ => SetPhase(s, id, NextPhase(k, p, s.store, verified, m))
  }

  function Perform(s: Sys, verified: Verified, act: Action): Sys
    requires Enabled(s, act)
  {
    match act
    case Begin(id, k) => s.(tasks := s.tasks[id := Task(k, Looking)])
    case Advance(id, m) => MoveTask(s, verified, id, m)
    case OrphanRuns(id, ok) =>
      var (k, b) := s.orphans[id];
      var r := s.(orphans := s.orphans - {id});
      if ok then r.(store := s.store[k := b], log := s.log + multiset{LandedLate(k)}) else r
    case Remove(k) => s.(store := s.store - {k}, log := s.log + multiset{Removed(k)})
    case Install(k, b) => s.(store := s.store[k := b])
  }

  function Step(s: Sys, verified: Verified, act: Action): Sys {
    if Enabled(s, act) then Perform(s, verified, act) else s
  }

  function Run(s: Sys, verified: Verified, acts: seq<Action>): Sys {
    if acts == [] then s else Step(Run(s, verified, acts[..|acts| - 1]), verified, acts[|acts| - 1])
  }

  // ----- one lock per key -----

  /** Every live handle of a key is the lock in the map, and no two keys share a lock. */
  ghost predicate HandlesMatch(s: Sys) {
    && (forall t | t in s.tasks && HasHandle(s.tasks[t].phase) ::
         s.tasks[t].key in s.locks && s.locks[s.tasks[t].key] == s.tasks[t].phase.lock)
    && (forall k | k in s.locks :: s.locks[k] < s.nextLock)
    && (forall j, k | j in s.locks && k in s.locks && s.locks[j] == s.locks[k] :: j == k)
  }

  ghost predicate GuardsMatch(s: Sys) {
    && (forall t | t in s.tasks && InSection(s.tasks[t].phase) ::
         s.tasks[t].phase.lock in s.held && s.held[s.tasks[t].phase.lock] == t)
    && (forall l | l in s.held ::
         s.held[l] in s.tasks && InSection(s.tasks[s.held[l]].phase) && s.tasks[s.held[l]].phase.lock == l)
  }

  ghost predicate Locked(s: Sys) {
    HandlesMatch(s) && GuardsMatch(s)
  }

  lemma CountOneMeansUnused(s: Sys, k: ImposterKey)
    requires HandlesMatch(s) && k in s.locks
    ensures StrongCount(s, s.locks[k]) == 1 <==> Holders(s, s.locks[k]) == {}
  {
    assert MapRefs(s, s.locks[k]) == {k};
  }

  lemma ReleaseKeepsLocks(s: Sys, id: TaskId, result: Served)
    requires Locked(s) && id in s.tasks && s.tasks[id].phase.Releasing?
    ensures Locked(ReleaseLock(s, id, result))
  {
    var k := s.tasks[id].key;
    var dropped := s.(lastDrop := s.lastDrop[k := ByRelease]);
    SameLocks(s, dropped);
    SamePhaseKind(dropped, id, Finished(result));
    var r := SetPhase(dropped, id, Finished(result));
    CountOneMeansUnused(r, k);
    if StrongCount(r, r.locks[k]) == 1 {
      DropEntryKeeps(r, k);
    }
  }

  lemma DropEntryKeeps(s: Sys, k: ImposterKey)
    requires Locked(s) && k in s.locks && Holders(s, s.locks[k]) == {}
    ensures Locked(s.(locks := s.locks - {k}))
  {
    forall t | t in s.tasks && HasHandle(s.tasks[t].phase) ensures s.tasks[t].key != k {
      assert t !in Holders(s, s.locks[k]);
    }
  }

  lemma SamePhaseKind(s: Sys, id: TaskId, p: Phase)
    requires Locked(s) && id in s.tasks
    requires HasHandle(p) ==> HasHandle(s.tasks[id].phase) && p.lock == s.tasks[id].phase.lock
    requires InSection(p) == InSection(s.tasks[id].phase)
    ensures Locked(SetPhase(s, id, p))
  {
  }

  lemma LeaveSection(s: Sys, id: TaskId, p: Phase)
    requires Locked(s) && id in s.tasks && InSection(s.tasks[id].phase)
    requires HasHandle(p) && !InSection(p) && p.lock == s.tasks[id].phase.lock
    ensures Locked(SetPhase(s.(held := s.held - {p.lock}), id, p))
  {
    var r := SetPhase(s.(held := s.held - {p.lock}), id, p);
    forall t | t in r.tasks && InSection(r.tasks[t].phase)
      ensures r.tasks[t].phase.lock in r.held && r.held[r.tasks[t].phase.lock] == t
    {
      assert s.held[s.tasks[t].phase.lock] == t;
    }
  }

  lemma TakeHandleKeeps(s: Sys, id: TaskId)
    requires Locked(s) && id in s.tasks && s.tasks[id].phase.Asking? && s.tasks[id].key in s.locks
    ensures Locked(SetPhase(s, id, Waiting(s.locks[s.tasks[id].key])))
  {
  }

  lemma FreshLockKeeps(s: Sys, k: ImposterKey)
    requires Locked(s) && k !in s.locks
    ensures Locked(s.(locks := s.locks[k := s.nextLock], nextLock := s.nextLock + 1))
  {
  }

  lemma GetLockKeeps(s: Sys, id: TaskId)
    requires Locked(s) && id in s.tasks && s.tasks[id].phase.Asking?
    ensures Locked(LockFor(s, id))
  {
    var k := s.tasks[id].key;
    if k in s.locks {
      TakeHandleKeeps(s, id);
    } else {
      FreshLockKeeps(s, k);
      TakeHandleKeeps(s.(locks := s.locks[k := s.nextLock], nextLock := s.nextLock + 1), id);
    }
  }

  lemma AcquireKeeps(s: Sys, id: TaskId)
    requires Locked(s) && id in s.tasks && s.tasks[id].phase.Waiting? && s.tasks[id].phase.lock !in s.held
    ensures var l := s.tasks[id].phase.lock; Locked(SetPhase(s.(held := s.held[l := id]), id, Holding(l)))
  {
    var l := s.tasks[id].phase.lock;
    var r := SetPhase(s.(held := s.held[l := id]), id, Holding(l));
    forall t | t in r.tasks && InSection(r.tasks[t].phase)
      ensures r.tasks[t].phase.lock in r.held && r.held[r.tasks[t].phase.lock] == t
    {
      assert t != id ==> r.tasks[t] == s.tasks[t];
    }
  }

  lemma CancelKeeps(s: Sys, id: TaskId)
    requires Locked(s) && id in s.tasks && AtAwait(s.tasks[id].phase)
    ensures Locked(CancelTask(s, id))
  {
    var r := CancelTask(s, id);
    var p := s.tasks[id].phase;
    if p.Looking? || p.Waiting? {
      SamePhaseKind(s, id, r.tasks[id].phase);
    } else {
      LeaveSection(s, id, Dropping(p.lock));
    }
  }

  lemma MoveKeepsLocks(s: Sys, verified: Verified, id: TaskId, m: Move)
    requires Locked(s) && CanMove(s, id, m)
    ensures Locked(MoveTask(s, verified, id, m))
  {
    match m
    case GetLock => GetLockKeeps(s, id);
    case Acquire => AcquireKeeps(s, id);
    case Unlock => LeaveSection(s, id, Releasing(s.tasks[id].phase.lock, s.tasks[id].phase.result));
    case Release => ReleaseKeepsLocks(s, id, s.tasks[id].phase.result);
    case Cancel => CancelKeeps(s, id);
    case RenameRuns(_) => RenameKeepsLocks(s, verified, id, m);
    case DropHandle => DropKeepsLocks(s, verified, id);
    case _ => PhaseMoveKeepsLocks(s, verified, id, m);
  }

  lemma RenameKeepsLocks(s: Sys, verified: Verified, id: TaskId, m: Move)
    requires Locked(s) && CanMove(s, id, m) && m.RenameRuns?
    ensures Locked(MoveTask(s, verified, id, m))
  {
    var r := MoveTask(s, verified, id, m);
    SameLocks(s, s.(store := r.store, log := r.log));
    SamePhaseKind(s.(store := r.store, log := r.log), id, r.tasks[id].phase);
  }

  lemma DropKeepsLocks(s: Sys, verified: Verified, id: TaskId)
    requires Locked(s) && CanMove(s, id, DropHandle)
    ensures Locked(MoveTask(s, verified, id, DropHandle))
  {
    SamePhaseKind(s.(lastDrop := s.lastDrop[s.tasks[id].key := ByCancel]), id, Cancelled);
  }

  lemma PhaseMoveKeepsLocks(s: Sys, verified: Verified, id: TaskId, m: Move)
    requires Locked(s) && CanMove(s, id, m) && (m.LookUp? || m.LookAgain? || m.FetchDone? || m.Written? || m.Resume?)
    ensures Locked(MoveTask(s, verified, id, m))
  {
    SamePhaseKind(s, id, MoveTask(s, verified, id, m).tasks[id].phase);
  }

  lemma SameLocks(s: Sys, r: Sys)
    requires Locked(s) && r.tasks == s.tasks && r.locks == s.locks && r.held == s.held && r.nextLock == s.nextLock
    ensures Locked(r)
  {
  }

  lemma BeginKeepsLocks(s: Sys, id: TaskId, k: ImposterKey)
    requires Locked(s) && id !in s.tasks
    ensures Locked(s.(tasks := s.tasks[id := Task(k, Looking)]))
  {
  }

  lemma StepKeepsLocks(s: Sys, verified: Verified, act: Action)
    requires Locked(s) && Enabled(s, act)
    ensures Locked(Perform(s, verified, act))
  {
    match act
    case Begin(id, k) => BeginKeepsLocks(s, id, k);
    case Advance(id, m) => MoveKeepsLocks(s, verified, id, m);
    case _ => SameLocks(s, Perform(s, verified, act));
  }

  lemma {:induction false} EveryRunLocked(store: map<ImposterKey, Body>, verified: Verified, acts: seq<Action>)
    ensures Locked(Run(Start(store), verified, acts))
  {
    if acts != [] {
      var before := Run(Start(store), verified, acts[..|acts| - 1]);
      EveryRunLocked(store, verified, acts[..|acts| - 1]);
      if Enabled(before, acts[|acts| - 1]) {
        StepKeepsLocks(before, verified, acts[|acts| - 1]);
      }
    }
  }

  /** In every interleaving at most one task per key is between taking and giving up the guard. */
  lemma OneTaskPerKeyInSection(
    store: map<ImposterKey, Body>, verified: Verified, acts: seq<Action>, t: TaskId, u: TaskId)
    requires var s := Run(Start(store), verified, acts);
             && t in s.tasks && u in s.tasks && s.tasks[t].key == s.tasks[u].key
             && InSection(s.tasks[t].phase) && InSection(s.tasks[u].phase)
    ensures t == u
  {
    EveryRunLocked(store, verified, acts);
  }

  // ----- progress -----

  /** The move, other than being cancelled, that a task makes next unless it waits for a mutex. */
  function NextMove(p: Phase): Option<Move> {
    match p
    case Looking => Some(LookUp)
    case Asking => Some(GetLock)
    case Waiting(_) => Some(Acquire)
    case Holding(_) => Some(LookAgain)
    case Fetching(_) => Some(FetchDone(NotFound))
    case Writing(_, _) => Some(Written(true))
    case Renaming(_, _) => Some(RenameRuns(true))
    case Landed(_, _) => Some(Resume)
    case Unlocking(_, _) => Some(Unlock)
    case Releasing(_, _) => Some(Release)
    case Dropping(_) => Some(DropHandle)
    case Finished(_) => None
    case Cancelled => None
  }

  /** In every run, while some call is neither finished nor cancelled, a call can go on without being cancelled:
      it or the one that holds the mutex it waits for. */
  lemma SomeCallCanGoOn(store: map<ImposterKey, Body>, verified: Verified, acts: seq<Action>, t: TaskId)
    returns (u: TaskId, m: Move)
    requires var s := Run(Start(store), verified, acts);
      t in s.tasks && !s.tasks[t].phase.Finished? && !s.tasks[t].phase.Cancelled?
    ensures CanMove(Run(Start(store), verified, acts), u, m) && !m.Cancel?
  {
    var s := Run(Start(store), verified, acts);
    EveryRunLocked(store, verified, acts);
    var p := s.tasks[t].phase;
    u := if p.Waiting? && p.lock in s.held then s.held[p.lock] else t;
    m := NextMove(s.tasks[u].phase).value;
  }

  // ----- how often a key lands -----

  ghost predicate MissPending(s: Sys, k: ImposterKey) {
    exists t :: t in s.tasks && s.tasks[t].key == k && PastMiss(s.tasks[t].phase)
  }

  function RenamesFor(orphans: map<TaskId, (ImposterKey, Body)>, k: ImposterKey): set<TaskId> {
    set t | t in orphans && orphans[t].0 == k
  }

  function OrphansOf(s: Sys, k: ImposterKey): set<TaskId> {
    RenamesFor(s.orphans, k)
  }

  /** A landing under the lock needs the archive absent since the last one: at most one more than removals. */
  ghost predicate LandingsBounded(s: Sys, k: ImposterKey) {
    && s.log[LandedBy(k)] <= s.log[Removed(k)] + (if k in s.store then 1 else 0)
    && (MissPending(s, k) ==> s.log[LandedBy(k)] <= s.log[Removed(k)])
    && s.log[LandedLate(k)] + |OrphansOf(s, k)| <= s.log[Orphaned(k)]
  }

  ghost predicate OrphansCancelled(s: Sys) {
    forall t | t in s.orphans :: t in s.tasks && (s.tasks[t].phase.Dropping? || s.tasks[t].phase.Cancelled?)
  }

  /** What the move from `s` to `r` does to the phase of `id`, the store, the orphans and the counts. */
  ghost predicate MoveFrame(s: Sys, r: Sys, id: TaskId, m: Move) {
    && CanMove(s, id, m) && id in r.tasks
    && r.tasks == s.tasks[id := Task(s.tasks[id].key, r.tasks[id].phase)]
    && var k, p, q := s.tasks[id].key, s.tasks[id].phase, r.tasks[id].phase;
    && (PastMiss(q) ==> PastMiss(p) || (m.LookAgain? && k !in s.store))
    && (if m.RenameRuns? && m.renamed then
          q.Landed? && r.log == s.log + multiset{LandedBy(k)} && r.store == s.store[k := p.body]
        else if m.Cancel? && p.Renaming? then
          q.Dropping? && r.log == s.log + multiset{Orphaned(k)} && r.store == s.store
        else r.log == s.log && r.store == s.store)
    && r.orphans == (if m.Cancel? && p.Renaming? then s.orphans[id := (k, p.body)] else s.orphans)
    && (p.Dropping? || p.Cancelled? ==> q.Cancelled?)
    && (q.Dropping? || q.Cancelled? ==> m.Cancel? || m.DropHandle?)
    && r.lastDrop == (if m.Release? then s.lastDrop[k := ByRelease]
                      else if m.DropHandle? then s.lastDrop[k := ByCancel] else s.lastDrop)
  }

  lemma CancelHasFrame(s: Sys, id: TaskId)
    requires CanMove(s, id, Cancel)
    ensures MoveFrame(s, CancelTask(s, id), id, Cancel)
  {
    var p, r := s.tasks[id].phase, CancelTask(s, id);
    var q := if p.Looking? then Cancelled else Dropping(p.lock);
    assert r.tasks == s.tasks[id := Task(s.tasks[id].key, q)];
  }

  lemma LockHasFrame(s: Sys, id: TaskId)
    requires CanMove(s, id, GetLock)
    ensures MoveFrame(s, LockFor(s, id), id, GetLock)
  {
  }

  lemma ReleaseHasFrame(s: Sys, id: TaskId)
    requires CanMove(s, id, Release)
    ensures MoveFrame(s, ReleaseLock(s, id, s.tasks[id].phase.result), id, Release)
  {
  }

  /** Moves that write the store or the lock table by plain assignments. */
  lemma PlainHasFrame(s: Sys, verified: Verified, id: TaskId, m: Move)
    requires CanMove(s, id, m) && (m.Acquire? || m.RenameRuns? || m.Unlock? || m.DropHandle?)
    ensures MoveFrame(s, MoveTask(s, verified, id, m), id, m)
  {
  }

  /** Moves that only change the phase. */
  lemma PhaseHasFrame(s: Sys, verified: Verified, id: TaskId, m: Move)
    requires CanMove(s, id, m) && (m.LookUp? || m.LookAgain? || m.FetchDone? || m.Written? || m.Resume?)
    ensures MoveFrame(s, MoveTask(s, verified, id, m), id, m)
  {
  }

  lemma MoveHasFrame(s: Sys, verified: Verified, id: TaskId, m: Move)
    requires CanMove(s, id, m)
    ensures MoveFrame(s, MoveTask(s, verified, id, m), id, m)
  {
    match m
    case Cancel => CancelHasFrame(s, id);
    case GetLock => LockHasFrame(s, id);
    case Release => ReleaseHasFrame(s, id);
    case Acquire => PlainHasFrame(s, verified, id, m);
    case RenameRuns(_) => PlainHasFrame(s, verified, id, m);
    case Unlock => PlainHasFrame(s, verified, id, m);
    case DropHandle => PlainHasFrame(s, verified, id, m);
    case _ => PhaseHasFrame(s, verified, id, m);
  }

  lemma PendingBefore(s: Sys, r: Sys, id: TaskId, m: Move, k: ImposterKey)
    requires MoveFrame(s, r, id, m) && MissPending(r, k)
    ensures MissPending(s, k) || (m.LookAgain? && k !in s.store)
  {
    var t :| t in r.tasks && r.tasks[t].key == k && PastMiss(r.tasks[t].phase);
    assert t in s.tasks && s.tasks[t].key == k;
  }

  /** After the landing under the lock no other task of that key is past its miss. */
  lemma LandingClearsPending(s: Sys, r: Sys, id: TaskId, m: Move)
    requires Locked(s) && MoveFrame(s, r, id, m) && m.RenameRuns? && m.renamed
    ensures !MissPending(r, s.tasks[id].key) && MissPending(s, s.tasks[id].key)
  {
    var k := s.tasks[id].key;
    forall t | t in r.tasks && r.tasks[t].key == k ensures !PastMiss(r.tasks[t].phase) {
      if t != id {
        assert r.tasks[t] == s.tasks[t];
        assert InSection(s.tasks[t].phase) ==> s.held[s.tasks[t].phase.lock] == t;
        assert s.held[s.tasks[id].phase.lock] == id;
      }
    }
  }

  lemma OneRenameMore(orphans: map<TaskId, (ImposterKey, Body)>, id: TaskId, k: ImposterKey, v: (ImposterKey, Body))
    requires id !in orphans
    ensures |RenamesFor(orphans[id := v], k)| == |RenamesFor(orphans, k)| + if v.0 == k then 1 else 0
  {
    if v.0 == k {
      assert RenamesFor(orphans[id := v], k) == RenamesFor(orphans, k) + {id};
    } else {
      assert RenamesFor(orphans[id := v], k) == RenamesFor(orphans, k);
    }
  }

  lemma MoveBounded(s: Sys, r: Sys, id: TaskId, m: Move, k: ImposterKey)
    requires Locked(s) && OrphansCancelled(s) && LandingsBounded(s, k) && MoveFrame(s, r, id, m)
    ensures LandingsBounded(r, k)
  {
    if m.Cancel? && s.tasks[id].phase.Renaming? {
      assert id !in s.orphans;
      OneRenameMore(s.orphans, id, k, (s.tasks[id].key, s.tasks[id].phase.body));
    } else {
      assert OrphansOf(r, k) == OrphansOf(s, k);
    }
    if MissPending(r, k) {
      PendingBefore(s, r, id, m, k);
    }
    if m.RenameRuns? && m.renamed && s.tasks[id].key == k {
      LandingClearsPending(s, r, id, m);
    }
  }

  lemma OrphanBounded(s: Sys, verified: Verified, id: TaskId, ok: bool, k: ImposterKey)
    requires id in s.orphans && LandingsBounded(s, k)
    ensures LandingsBounded(Perform(s, verified, OrphanRuns(id, ok)), k)
  {
    var r := Perform(s, verified, OrphanRuns(id, ok));
    OneRenameLess(s.orphans, id, k);
    assert MissPending(r, k) ==> MissPending(s, k);
  }

  lemma OneRenameLess(orphans: map<TaskId, (ImposterKey, Body)>, id: TaskId, k: ImposterKey)
    requires id in orphans
    ensures |RenamesFor(orphans, k)| == |RenamesFor(orphans - {id}, k)| + if orphans[id].0 == k then 1 else 0
  {
    if orphans[id].0 == k {
      assert RenamesFor(orphans, k) == RenamesFor(orphans - {id}, k) + {id};
    } else {
      assert RenamesFor(orphans, k) == RenamesFor(orphans - {id}, k);
    }
  }

  lemma BeginBounded(s: Sys, verified: Verified, id: TaskId, key: ImposterKey, k: ImposterKey)
    requires id !in s.tasks && LandingsBounded(s, k)
    ensures LandingsBounded(Perform(s, verified, Begin(id, key)), k)
  {
    var r := Perform(s, verified, Begin(id, key));
    assert OrphansOf(r, k) == OrphansOf(s, k);
    if MissPending(r, k) {
      var t :| t in r.tasks && r.tasks[t].key == k && PastMiss(r.tasks[t].phase);
      assert t in s.tasks && PastMiss(s.tasks[t].phase);
    }
  }

  lemma StepBounded(s: Sys, verified: Verified, act: Action, k: ImposterKey)
    requires Locked(s) && OrphansCancelled(s) && Enabled(s, act) && LandingsBounded(s, k)
    ensures LandingsBounded(Perform(s, verified, act), k) && OrphansCancelled(Perform(s, verified, act))
  {
    match act
    case Begin(id, key) => BeginBounded(s, verified, id, key, k);
    case Advance(id, m) => AdvanceBounded(s, verified, id, m, k);
    case OrphanRuns(id, ok) => OrphanBounded(s, verified, id, ok, k);
    case Remove(gone) =>
      StoreBounded(s, s.(store := s.store - {gone}, log := s.log + multiset{Removed(gone)}), k);
    case Install(key, b) =>
      StoreBounded(s, s.(store := s.store[key := b]), k);
  }

  lemma AdvanceBounded(s: Sys, verified: Verified, id: TaskId, m: Move, k: ImposterKey)
    requires Locked(s) && OrphansCancelled(s) && CanMove(s, id, m) && LandingsBounded(s, k)
    ensures LandingsBounded(MoveTask(s, verified, id, m), k) && OrphansCancelled(MoveTask(s, verified, id, m))
  {
    MoveHasFrame(s, verified, id, m);
    MoveBounded(s, MoveTask(s, verified, id, m), id, m, k);
    OrphansStayCancelled(s, MoveTask(s, verified, id, m), id, m);
  }

  lemma OrphansStayCancelled(s: Sys, r: Sys, id: TaskId, m: Move)
    requires OrphansCancelled(s) && MoveFrame(s, r, id, m)
    ensures OrphansCancelled(r)
  {
  }

  /** The store changed from outside: a key only goes together with a count of its removal. */
  lemma StoreBounded(s: Sys, r: Sys, k: ImposterKey)
    requires LandingsBounded(s, k) && r.tasks == s.tasks && r.orphans == s.orphans
    requires r.log[LandedBy(k)] == s.log[LandedBy(k)] && r.log[LandedLate(k)] == s.log[LandedLate(k)]
    requires r.log[Orphaned(k)] == s.log[Orphaned(k)] && r.log[Removed(k)] >= s.log[Removed(k)]
    requires k in s.store && k !in r.store ==> r.log[Removed(k)] > s.log[Removed(k)]
    ensures LandingsBounded(r, k)
  {
    assert OrphansOf(r, k) == OrphansOf(s, k);
    assert MissPending(r, k) ==> MissPending(s, k);
  }

  lemma {:induction false} EveryRunBounded(
    store: map<ImposterKey, Body>, verified: Verified, acts: seq<Action>, k: ImposterKey)
    ensures var s := Run(Start(store), verified, acts);
            LandingsBounded(s, k) && OrphansCancelled(s)
  {
    if acts != [] {
      var before := Run(Start(store), verified, acts[..|acts| - 1]);
      EveryRunBounded(store, verified, acts[..|acts| - 1], k);
      EveryRunLocked(store, verified, acts[..|acts| - 1]);
      if Enabled(before, acts[|acts| - 1]) {
        StepBounded(before, verified, acts[|acts| - 1], k);
      }
    } else {
      assert OrphansOf(Start(store), k) == {};
    }
  }

  function Landings(s: Sys, k: ImposterKey): nat {
    s.log[LandedBy(k)] + s.log[LandedLate(k)]
  }

  /**
    A key lands at most once more often than it was removed or a cancelled call left its rename running;
    so with no removal and no such cancellation, at most once.
   */
  lemma KeyLandsOnce(store: map<ImposterKey, Body>, verified: Verified, acts: seq<Action>, k: ImposterKey)
    ensures var s := Run(Start(store), verified, acts);
            Landings(s, k) <= 1 + s.log[Removed(k)] + s.log[Orphaned(k)]
  {
    EveryRunBounded(store, verified, acts, k);
  }

  // ----- what stays in the lock map -----

  function HandlesOf(s: Sys, k: ImposterKey): set<TaskId> {
    set t | t in s.tasks && s.tasks[t].key == k && HasHandle(s.tasks[t].phase)
  }

  function LastDrop(s: Sys, k: ImposterKey): Option<Dropped> {
    if k in s.lastDrop then Some(s.lastDrop[k]) else None
  }

  /** With no live handle, an entry is left exactly when the last handle was let go by a cancelled call. */
  ghost predicate EntryExplained(s: Sys, k: ImposterKey) {
    HandlesOf(s, k) == {} ==> (k in s.locks <==> LastDrop(s, k) == Some(ByCancel))
  }

  lemma SameHandlesExplained(s: Sys, r: Sys, k: ImposterKey)
    requires EntryExplained(s, k) && HandlesOf(r, k) == HandlesOf(s, k)
    requires (k in r.locks <==> k in s.locks) && LastDrop(r, k) == LastDrop(s, k)
    ensures EntryExplained(r, k)
  {
  }

  lemma HoldersAreHandles(s: Sys, k: ImposterKey)
    requires HandlesMatch(s) && k in s.locks
    ensures Holders(s, s.locks[k]) == HandlesOf(s, k)
  {
  }

  lemma OtherKeyExplained(s: Sys, r: Sys, id: TaskId, p: Phase, k: ImposterKey)
    requires id in s.tasks && s.tasks[id].key != k && r.tasks == SetPhase(s, id, p).tasks && EntryExplained(s, k)
    requires (k in r.locks <==> k in s.locks) && LastDrop(r, k) == LastDrop(s, k)
    ensures EntryExplained(r, k)
  {
    assert HandlesOf(r, k) == HandlesOf(s, k);
  }

  lemma OwnReleaseExplained(s: Sys, id: TaskId)
    requires Locked(s) && CanMove(s, id, Release)
    ensures EntryExplained(ReleaseLock(s, id, s.tasks[id].phase.result), s.tasks[id].key)
  {
    var k, result := s.tasks[id].key, s.tasks[id].phase.result;
    var r := SetPhase(s, id, Finished(result)).(lastDrop := s.lastDrop[k := ByRelease]);
    assert HandlesMatch(r) && k in r.locks;
    CountOneMeansUnused(r, k);
    HoldersAreHandles(r, k);
    assert HandlesOf(ReleaseLock(s, id, result), k) == HandlesOf(r, k);
  }

  lemma ReleaseExplained(s: Sys, id: TaskId, k: ImposterKey)
    requires Locked(s) && CanMove(s, id, Release) && EntryExplained(s, k)
    ensures EntryExplained(ReleaseLock(s, id, s.tasks[id].phase.result), k)
  {
    var result := s.tasks[id].phase.result;
    if k == s.tasks[id].key {
      OwnReleaseExplained(s, id);
    } else {
      OtherKeyExplained(s, ReleaseLock(s, id, result), id, Finished(result), k);
    }
  }

  lemma DropExplained(s: Sys, verified: Verified, id: TaskId, k: ImposterKey)
    requires Locked(s) && CanMove(s, id, DropHandle) && EntryExplained(s, k)
    ensures EntryExplained(MoveTask(s, verified, id, DropHandle), k)
  {
    var after := MoveTask(s, verified, id, DropHandle);
    if k != s.tasks[id].key {
      assert HandlesOf(after, k) == HandlesOf(s, k);
      SameHandlesExplained(s, after, k);
    }
  }

  lemma GetLockExplained(s: Sys, id: TaskId, k: ImposterKey)
    requires CanMove(s, id, GetLock) && EntryExplained(s, k)
    ensures EntryExplained(LockFor(s, id), k)
  {
    var after := LockFor(s, id);
    LockForKeepsOthers(s, id, k);
    if k == s.tasks[id].key {
      assert id in HandlesOf(after, k);
    } else {
      OtherTasksHandles(s, after, id, k);
      SameHandlesExplained(s, after, k);
    }
  }

  lemma WithLockKeepsOthers(s: Sys, key: ImposterKey, k: ImposterKey)
    ensures var r := WithLock(s, key);
      r.tasks == s.tasks && r.lastDrop == s.lastDrop && (k != key ==> (k in r.locks <==> k in s.locks))
  {
  }

  lemma LockForKeepsOthers(s: Sys, id: TaskId, k: ImposterKey)
    requires CanMove(s, id, GetLock)
    ensures var r := LockFor(s, id);
      && id in r.tasks && r.tasks[id].phase.Waiting?
      && r.tasks == s.tasks[id := Task(s.tasks[id].key, r.tasks[id].phase)]
      && (k != s.tasks[id].key ==> (k in r.locks <==> k in s.locks))
      && LastDrop(r, k) == LastDrop(s, k)
  {
    WithLockKeepsOthers(s, s.tasks[id].key, k);
  }

  lemma OtherTasksHandles(s: Sys, r: Sys, id: TaskId, k: ImposterKey)
    requires id in s.tasks && s.tasks[id].key != k
    requires id in r.tasks && r.tasks == s.tasks[id := Task(s.tasks[id].key, r.tasks[id].phase)]
    ensures HandlesOf(r, k) == HandlesOf(s, k)
  {
  }

  /** The other moves neither take nor let go of a handle. */
  ghost predicate KeepsHandle(s: Sys, r: Sys, id: TaskId) {
    && id in s.tasks && id in r.tasks && r.tasks == s.tasks[id := Task(s.tasks[id].key, r.tasks[id].phase)]
    && HasHandle(r.tasks[id].phase) == HasHandle(s.tasks[id].phase)
    && r.locks == s.locks && r.lastDrop == s.lastDrop
  }

  lemma PhaseMovesKeepHandle(s: Sys, verified: Verified, id: TaskId, m: Move)
    requires CanMove(s, id, m) && (m.LookUp? || m.LookAgain? || m.FetchDone? || m.Written? || m.Resume?)
    ensures KeepsHandle(s, MoveTask(s, verified, id, m), id)
  {
  }

  lemma PlainMovesKeepHandle(s: Sys, verified: Verified, id: TaskId, m: Move)
    requires CanMove(s, id, m) && (m.Acquire? || m.RenameRuns? || m.Unlock?)
    ensures KeepsHandle(s, MoveTask(s, verified, id, m), id)
  {
    match m
    case Acquire =>
    case RenameRuns(_) =>
    case Unlock =>
  }

  lemma CancelKeepsHandle(s: Sys, id: TaskId)
    requires CanMove(s, id, Cancel)
    ensures KeepsHandle(s, CancelTask(s, id), id)
  {
  }

  lemma OtherMovesKeepHandles(s: Sys, verified: Verified, id: TaskId, m: Move)
    requires CanMove(s, id, m) && !m.GetLock? && !m.Release? && !m.DropHandle?
    ensures KeepsHandle(s, MoveTask(s, verified, id, m), id)
  {
    if m.Cancel? {
      CancelKeepsHandle(s, id);
    } else if m.Acquire? || m.RenameRuns? || m.Unlock? {
      PlainMovesKeepHandle(s, verified, id, m);
    } else {
      PhaseMovesKeepHandle(s, verified, id, m);
    }
  }

  lemma SameHandlesOf(s: Sys, r: Sys, id: TaskId, k: ImposterKey)
    requires id in s.tasks && id in r.tasks && r.tasks == s.tasks[id := Task(s.tasks[id].key, r.tasks[id].phase)]
    requires HasHandle(r.tasks[id].phase) == HasHandle(s.tasks[id].phase)
    ensures HandlesOf(r, k) == HandlesOf(s, k)
  {
  }

  lemma MoveExplained(s: Sys, verified: Verified, id: TaskId, m: Move, k: ImposterKey)
    requires Locked(s) && CanMove(s, id, m) && EntryExplained(s, k)
    ensures EntryExplained(MoveTask(s, verified, id, m), k)
  {
    match m
    case GetLock => GetLockExplained(s, id, k);
    case Release => ReleaseExplained(s, id, k);
    case DropHandle => DropExplained(s, verified, id, k);
    case _ =>
      OtherMovesKeepHandles(s, verified, id, m);
      HandleKept(s, MoveTask(s, verified, id, m), id, k);
  }

  lemma HandleKept(s: Sys, r: Sys, id: TaskId, k: ImposterKey)
    requires KeepsHandle(s, r, id) && EntryExplained(s, k)
    ensures EntryExplained(r, k)
  {
    SameHandlesOf(s, r, id, k);
    SameHandlesExplained(s, r, k);
  }

  lemma StepExplained(s: Sys, verified: Verified, act: Action, k: ImposterKey)
    requires Locked(s) && Enabled(s, act) && EntryExplained(s, k)
    ensures EntryExplained(Perform(s, verified, act), k)
  {
    match act
    case Begin(id, key) =>
      var r := s.(tasks := s.tasks[id := Task(key, Looking)]);
      assert HandlesOf(r, k) == HandlesOf(s, k);
      SameHandlesExplained(s, r, k);
    case Advance(id, m) => MoveExplained(s, verified, id, m, k);
    case _ => SameTasksExplained(s, Perform(s, verified, act), k);
  }

  lemma SameTasksExplained(s: Sys, r: Sys, k: ImposterKey)
    requires EntryExplained(s, k) && r.tasks == s.tasks && r.locks == s.locks && r.lastDrop == s.lastDrop
    ensures EntryExplained(r, k)
  {
  }

  lemma {:induction false} EveryEntryExplained(
    store: map<ImposterKey, Body>, verified: Verified, acts: seq<Action>, k: ImposterKey)
    ensures EntryExplained(Run(Start(store), verified, acts), k)
  {
    if acts != [] {
      var s, act := Run(Start(store), verified, acts[..|acts| - 1]), acts[|acts| - 1];
      EveryEntryExplained(store, verified, acts[..|acts| - 1], k);
      EveryRunLocked(store, verified, acts[..|acts| - 1]);
      if Enabled(s, act) {
        StepExplained(s, verified, act, k);
      }
    }
  }

  ghost predicate NeverCancelled(acts: seq<Action>) {
    forall i | 0 <= i < |acts| && acts[i].Advance? :: !acts[i].move.Cancel?
  }

  ghost predicate NoTraceOfCancel(s: Sys) {
    && (forall t | t in s.tasks :: !s.tasks[t].phase.Dropping? && !s.tasks[t].phase.Cancelled?)
    && (forall k | k in s.lastDrop :: s.lastDrop[k] == ByRelease)
  }

  lemma MoveLeavesNoTrace(s: Sys, r: Sys, id: TaskId, m: Move)
    requires MoveFrame(s, r, id, m) && NoTraceOfCancel(s) && !m.Cancel?
    ensures NoTraceOfCancel(r)
  {
  }

  lemma {:induction false} NoCancelNoTrace(store: map<ImposterKey, Body>, verified: Verified, acts: seq<Action>)
    requires NeverCancelled(acts)
    ensures NoTraceOfCancel(Run(Start(store), verified, acts))
  {
    if acts != [] {
      var s, act := Run(Start(store), verified, acts[..|acts| - 1]), acts[|acts| - 1];
      NoCancelNoTrace(store, verified, acts[..|acts| - 1]);
      if Enabled(s, act) {
        if act.Advance? {
          MoveHasFrame(s, verified, act.task, act.move);
          MoveLeavesNoTrace(s, MoveTask(s, verified, act.task, act.move), act.task, act.move);
        } else {
          assert NoTraceOfCancel(Perform(s, verified, act));
        }
      }
    }
  }

  ghost predicate AllFinished(s: Sys) {
    forall t | t in s.tasks :: s.tasks[t].phase.Finished?
  }

  lemma NoEntryLeft(s: Sys, k: ImposterKey)
    requires AllFinished(s) && NoTraceOfCancel(s) && EntryExplained(s, k)
    ensures k !in s.locks
  {
    forall t ensures t !in HandlesOf(s, k) {
      assert t in s.tasks ==> s.tasks[t].phase.Finished?;
    }
    assert HandlesOf(s, k) == {};
  }

  /** When no call is cancelled, the lock map is empty once all calls have finished. */
  lemma LockMapEmptyWhenDone(store: map<ImposterKey, Body>, verified: Verified, acts: seq<Action>)
    requires NeverCancelled(acts) && AllFinished(Run(Start(store), verified, acts))
    ensures Run(Start(store), verified, acts).locks == map[]
  {
    var s := Run(Start(store), verified, acts);
    NoCancelNoTrace(store, verified, acts);
    forall k ensures k !in s.locks {
      EveryEntryExplained(store, verified, acts, k);
      NoEntryLeft(s, k);
    }
  }

  // ----- what is stored and served is verified -----

  ghost predicate BodiesVerified(s: Sys, verified: Verified) {
    && (forall k | k in s.store :: (k, s.store[k]) in verified)
    && (forall t | t in s.orphans :: s.orphans[t] in verified)
    && forall t | t in s.tasks :: PhaseVerified(s.tasks[t], verified)
  }

  ghost predicate PhaseVerified(t: Task, verified: Verified) {
    match t.phase
    case Writing(_, b) => (t.key, b) in verified
    case Renaming(_, b) => (t.key, b) in verified
    case Landed(_, b) => (t.key, b) in verified
    case Unlocking(_, Hit(b, _)) => (t.key, b) in verified
    case Releasing(_, Hit(b, _)) => (t.key, b) in verified
    case Finished(Hit(b, _)) => (t.key, b) in verified
    case _ => true
  }

  ghost predicate PhaseVerifiedAt(s: Sys, id: TaskId, known: Verified) {
    id in s.tasks && PhaseVerified(s.tasks[id], known)
  }

  lemma FetchedPhaseVerified(s: Sys, verified: Verified, known: Verified, id: TaskId, m: Move)
    requires CanMove(s, id, m) && (m.FetchDone? || m.Written? || m.Resume?)
    requires PhaseVerified(s.tasks[id], known) && verified <= known
    ensures PhaseVerifiedAt(MoveTask(s, verified, id, m), id, known)
  {
  }

  lemma LookedUpPhaseVerified(s: Sys, verified: Verified, known: Verified, id: TaskId, m: Move)
    requires CanMove(s, id, m) && (m.LookUp? || m.LookAgain?)
    requires s.tasks[id].key in s.store ==> (s.tasks[id].key, s.store[s.tasks[id].key]) in known
    ensures PhaseVerifiedAt(MoveTask(s, verified, id, m), id, known)
  {
  }

  lemma RenamedPhaseVerified(s: Sys, verified: Verified, known: Verified, id: TaskId, m: Move)
    requires CanMove(s, id, m) && (m.RenameRuns? || m.Unlock? || m.Release?)
    requires PhaseVerified(s.tasks[id], known)
    ensures PhaseVerifiedAt(MoveTask(s, verified, id, m), id, known)
  {
  }

  lemma EmptyPhaseVerified(s: Sys, verified: Verified, known: Verified, id: TaskId, m: Move)
    requires CanMove(s, id, m) && (m.GetLock? || m.Acquire? || m.Cancel? || m.DropHandle?)
    ensures PhaseVerifiedAt(MoveTask(s, verified, id, m), id, known)
  {
  }

  lemma MovedPhaseVerified(s: Sys, verified: Verified, known: Verified, id: TaskId, m: Move)
    requires CanMove(s, id, m) && PhaseVerified(s.tasks[id], known) && verified <= known
    requires s.tasks[id].key in s.store ==> (s.tasks[id].key, s.store[s.tasks[id].key]) in known
    ensures PhaseVerifiedAt(MoveTask(s, verified, id, m), id, known)
  {
    if m.FetchDone? || m.Written? || m.Resume? {
      FetchedPhaseVerified(s, verified, known, id, m);
    } else if m.LookUp? || m.LookAgain? {
      LookedUpPhaseVerified(s, verified, known, id, m);
    } else if m.RenameRuns? || m.Unlock? || m.Release? {
      RenamedPhaseVerified(s, verified, known, id, m);
    } else {
      EmptyPhaseVerified(s, verified, known, id, m);
    }
  }

  lemma FrameKeepsBodies(s: Sys, r: Sys, known: Verified, id: TaskId, m: Move)
    requires MoveFrame(s, r, id, m) && BodiesVerified(s, known) && PhaseVerified(r.tasks[id], known)
    ensures BodiesVerified(r, known)
  {
    assert PhaseVerified(s.tasks[id], known);
  }

  lemma MoveKeepsBodies(s: Sys, verified: Verified, known: Verified, id: TaskId, m: Move)
    requires CanMove(s, id, m) && BodiesVerified(s, known) && verified <= known
    ensures BodiesVerified(MoveTask(s, verified, id, m), known)
  {
    MoveHasFrame(s, verified, id, m);
    MovedPhaseVerified(s, verified, known, id, m);
    FrameKeepsBodies(s, MoveTask(s, verified, id, m), known, id, m);
  }

  /** What passes the zip check, was there at the start or was installed by another writer. */
  function Provided(store: map<ImposterKey, Body>, verified: Verified, acts: seq<Action>): Verified {
    (set k | k in store :: (k, store[k])) + verified
      + (set act | act in acts && act.Install? :: (act.key, act.body))
  }

  lemma StepKeepsBodies(s: Sys, verified: Verified, known: Verified, act: Action)
    requires Enabled(s, act) && BodiesVerified(s, known) && verified <= known
    requires act.Install? ==> (act.key, act.body) in known
    ensures BodiesVerified(Perform(s, verified, act), known)
  {
    match act
    case Advance(id, m) => MoveKeepsBodies(s, verified, known, id, m);
    case OrphanRuns(id, _) => assert s.orphans[id] == (s.orphans[id].0, s.orphans[id].1);
    case _ =>
  }

  /** Every archive stored or served for a key passed the zip check for that key, unless it was there at the start
      or another writer installed it under that key. */
  lemma {:induction false} OnlyVerifiedServed(store: map<ImposterKey, Body>, verified: Verified, acts: seq<Action>)
    ensures BodiesVerified(Run(Start(store), verified, acts), Provided(store, verified, acts))
  {
    var known := Provided(store, verified, acts);
    if acts == [] {
      forall k | k in store ensures (k, store[k]) in known {}
    } else {
      var before, act := acts[..|acts| - 1], acts[|acts| - 1];
      var s := Run(Start(store), verified, before);
      OnlyVerifiedServed(store, verified, before);
      assert acts == before + [act];
      assert Provided(store, verified, before) <= known;
      KnownGrows(s, Provided(store, verified, before), known);
      if Enabled(s, act) {
        StepKeepsBodies(s, verified, known, act);
      }
    }
  }

  lemma KnownGrows(s: Sys, known: Verified, more: Verified)
    requires BodiesVerified(s, known) && known <= more
    ensures BodiesVerified(s, more)
  {
    forall t | t in s.tasks ensures PhaseVerified(s.tasks[t], more) {
      assert PhaseVerified(s.tasks[t], known);
    }
  }

  // ----- what cancellation can do -----

  ghost predicate Reaches(verified: Verified, s: Sys) {
    exists acts :: Run(Start(map[]), verified, acts) == s
  }

  lemma ReachStep(verified: Verified, s: Sys, act: Action, r: Sys)
    requires Reaches(verified, s) && Enabled(s, act) && Perform(s, verified, act) == r
    ensures Reaches(verified, r)
  {
    var acts :| Run(Start(map[]), verified, acts) == s;
    assert (acts + [act])[..|acts|] == acts;
    assert Run(Start(map[]), verified, acts + [act]) == r;
  }

  /** `s` with task `id` for `k` in phase `p`. */
  function WithTask(s: Sys, id: TaskId, k: ImposterKey, p: Phase): Sys {
    s.(tasks := s.tasks[id := Task(k, p)])
  }

  /** One move of a task that only changes its phase and the shared parts given in `to`. */
  lemma ReachMove(verified: Verified, s: Sys, id: TaskId, k: ImposterKey, p: Phase, m: Move, to: Sys, q: Phase)
    requires Reaches(verified, WithTask(s, id, k, p)) && CanMove(WithTask(s, id, k, p), id, m)
    requires MoveTask(WithTask(s, id, k, p), verified, id, m) == WithTask(WithTask(to, id, k, p), id, k, q)
    ensures Reaches(verified, WithTask(to, id, k, q))
  {
    assert WithTask(WithTask(to, id, k, p), id, k, q) == WithTask(to, id, k, q);
    ReachStep(verified, WithTask(s, id, k, p), Advance(id, m), WithTask(to, id, k, q));
  }

  lemma ReachWaiting(verified: Verified, s: Sys, id: TaskId, k: ImposterKey)
    requires Reaches(verified, s) && id !in s.tasks && k !in s.store
    ensures Reaches(verified, WithTask(WithLock(s, k), id, k, Waiting(LockOf(s, k))))
  {
    ReachStep(verified, s, Begin(id, k), WithTask(s, id, k, Looking));
    ReachMove(verified, s, id, k, Looking, LookUp, s, Asking);
    ReachMove(verified, s, id, k, Asking, GetLock, WithLock(s, k), Waiting(LockOf(s, k)));
  }

  lemma ReachRename(verified: Verified, s: Sys, id: TaskId, k: ImposterKey, b: Body, l: LockId)
    requires Reaches(verified, WithTask(s, id, k, Waiting(l))) && l !in s.held && k !in s.store && (k, b) in verified
    ensures Reaches(verified, WithTask(s.(held := s.held[l := id]), id, k, Renaming(l, b)))
  {
    var t := s.(held := s.held[l := id]);
    ReachMove(verified, s, id, k, Waiting(l), Acquire, t, Holding(l));
    ReachMove(verified, t, id, k, Holding(l), LookAgain, t, Fetching(l));
    ReachMove(verified, t, id, k, Fetching(l), FetchDone(Got(b)), t, Writing(l, b));
    ReachMove(verified, t, id, k, Writing(l, b), Written(true), t, Renaming(l, b));
  }

  ghost predicate AllCancelled(s: Sys) {
    forall t | t in s.tasks :: s.tasks[t].phase.Cancelled?
  }

  /** A single call, cancelled while it waits, leaves its map entry behind. */
  lemma CancelledCallLeavesEntry(k: ImposterKey)
    ensures exists s :: Reaches({}, s) && |s.tasks| == 1 && AllCancelled(s) && k in s.locks
  {
    var s0 := Start(map[]);
    assert Run(Start(map[]), {}, []) == s0;
    ReachWaiting({}, s0, 0, k);
    var s1 := WithLock(s0, k);
    ReachMove({}, s1, 0, k, Waiting(0), Cancel, s1, Dropping(0));
    var s2 := s1.(lastDrop := s1.lastDrop[k := ByCancel]);
    ReachMove({}, s1, 0, k, Dropping(0), DropHandle, s2, Cancelled);
    var s := WithTask(s2, 0, k, Cancelled);
    assert s.tasks == map[0 := Task(k, Cancelled)];
    assert Reaches({}, s);
  }

  /** One call for `k` was cancelled with its rename in flight; nothing is stored and the lock is free. */
  function RenameOrphaned(k: ImposterKey, b: Body): Sys {
    Sys(map[0 := Task(k, Dropping(0))], map[k := 0], 1, map[], map[], map[0 := (k, b)], multiset{Orphaned(k)}, map[])
  }

  lemma ReachRenameOrphaned(k: ImposterKey, b: Body)
    ensures Reaches({(k, b)}, RenameOrphaned(k, b))
  {
    var v := {(k, b)};
    var s0 := Start(map[]);
    assert Run(Start(map[]), v, []) == s0;
    ReachWaiting(v, s0, 0, k);
    var s1 := WithLock(s0, k);
    ReachRename(v, s1, 0, k, b, 0);
    var s2 := s1.(held := s1.held[0 := 0]);
    var s3 := s1.(orphans := map[0 := (k, b)], log := multiset{Orphaned(k)});
    ReachMove(v, s2, 0, k, Renaming(0, b), Cancel, s3, Dropping(0));
    assert WithTask(s3, 0, k, Dropping(0)) == RenameOrphaned(k, b);
  }

  /** Without any removal, a key can land twice: a cancelled call's rename runs while the next call fetches. */
  lemma CancelledRenameLandsTwice(k: ImposterKey, b: Body)
    ensures exists s :: Reaches({(k, b)}, s) && Landings(s, k) == 2 && s.log[Removed(k)] == 0
  {
    var v := {(k, b)};
    ReachRenameOrphaned(k, b);
    var s4 := RenameOrphaned(k, b);
    ReachWaiting(v, s4, 1, k);
    ReachRename(v, s4, 1, k, b, 0);
    var s5 := s4.(held := s4.held[0 := 1]);
    var s6 := s5.(orphans := s5.orphans - {0}, store := s5.store[k := b], log := s5.log + multiset{LandedLate(k)});
    ReachStep(v, WithTask(s5, 1, k, Renaming(0, b)), OrphanRuns(0, true), WithTask(s6, 1, k, Renaming(0, b)));
    var s7 := s6.(store := s6.store[k := b], log := s6.log + multiset{LandedBy(k)});
    ReachMove(v, s6, 1, k, Renaming(0, b), RenameRuns(true), s7, Landed(0, b));
    assert Reaches(v, WithTask(s7, 1, k, Landed(0, b)));
  }

  /** One more call is cancelled with its rename in flight. */
  function OneMoreOrphan(s: Sys, id: TaskId, k: ImposterKey, b: Body): Sys {
    var t := WithLock(s, k);
    var orphaned := t.(orphans := t.orphans[id := (k, b)], log := t.log + multiset{Orphaned(k)});
    WithTask(orphaned, id, k, Dropping(LockOf(s, k)))
  }

  lemma ReachCancelledRename(verified: Verified, s: Sys, id: TaskId, k: ImposterKey, b: Body, l: LockId)
    requires l !in s.held && Reaches(verified, WithTask(s.(held := s.held[l := id]), id, k, Renaming(l, b)))
    ensures Reaches(verified, WithTask(s.(orphans := s.orphans[id := (k, b)], log := s.log + multiset{Orphaned(k)}),
                                       id, k, Dropping(l)))
  {
    var t := s.(held := s.held[l := id]);
    assert t.held - {l} == s.held;
    ReachMove(verified, t, id, k, Renaming(l, b), Cancel,
              s.(orphans := s.orphans[id := (k, b)], log := s.log + multiset{Orphaned(k)}), Dropping(l));
  }

  lemma ReachOneMoreOrphan(verified: Verified, s: Sys, id: TaskId, k: ImposterKey, b: Body)
    requires Reaches(verified, s) && id !in s.tasks && k !in s.store && (k, b) in verified && LockOf(s, k) !in s.held
    ensures Reaches(verified, OneMoreOrphan(s, id, k, b))
  {
    var l, s1 := LockOf(s, k), WithLock(s, k);
    ReachWaiting(verified, s, id, k);
    ReachRename(verified, s1, id, k, b, l);
    ReachCancelledRename(verified, s1, id, k, b, l);
  }

  function Below(n: nat): (r: set<TaskId>)
    ensures forall t: TaskId :: t in r <==> t < n
  {
    if n == 0 then {} else Below(n - 1) + {n - 1}
  }

  function Renames(k: ImposterKey, b: Body, n: nat): map<TaskId, (ImposterKey, Body)> {
    map t | t in Below(n) :: (k, b)
  }

  /** `n` calls for `k` were cancelled with their renames in flight, and nothing has landed yet. */
  ghost predicate OrphansWait(s: Sys, k: ImposterKey, b: Body, n: nat) {
    && k !in s.store && LockOf(s, k) !in s.held
    && s.tasks.Keys == Below(n)
    && s.orphans == Renames(k, b, n)
    && s.log[Orphaned(k)] == n && s.log[Removed(k)] == 0 && Landings(s, k) == 0
  }

  lemma OneMoreWaits(s: Sys, k: ImposterKey, b: Body, n: nat)
    requires OrphansWait(s, k, b, n)
    ensures OrphansWait(OneMoreOrphan(s, n, k, b), k, b, n + 1)
  {
    var r := OneMoreOrphan(s, n, k, b);
    OneMoreLogged(s, n, k, b);
    assert r.tasks.Keys == s.tasks.Keys + {n} == Below(n + 1);
    OneMoreRename(s.orphans, k, b, n);
  }

  lemma OneMoreRename(orphans: map<TaskId, (ImposterKey, Body)>, k: ImposterKey, b: Body, n: nat)
    requires orphans == Renames(k, b, n)
    ensures orphans[n := (k, b)] == Renames(k, b, n + 1)
  {
  }

  lemma WithLockKeeps(s: Sys, k: ImposterKey)
    ensures var t := WithLock(s, k);
      && t.store == s.store && t.held == s.held && t.orphans == s.orphans && t.log == s.log && t.tasks == s.tasks
      && k in t.locks && t.locks[k] == LockOf(s, k)
  {
  }

  lemma OneMoreLogged(s: Sys, id: TaskId, k: ImposterKey, b: Body)
    ensures var r := OneMoreOrphan(s, id, k, b);
      && r.store == s.store && r.held == s.held && LockOf(r, k) == LockOf(s, k)
      && r.orphans == s.orphans[id := (k, b)] && r.tasks.Keys == s.tasks.Keys + {id}
      && r.log == s.log + multiset{Orphaned(k)}
  {
    WithLockKeeps(s, k);
  }

  lemma {:induction false} ManyOrphans(k: ImposterKey, b: Body, n: nat) returns (s: Sys)
    ensures Reaches({(k, b)}, s) && OrphansWait(s, k, b, n)
  {
    if n == 0 {
      s := Start(map[]);
      assert Run(Start(map[]), {(k, b)}, []) == s;
    } else {
      var before := ManyOrphans(k, b, n - 1);
      assert n - 1 !in before.tasks.Keys;
      ReachOneMoreOrphan({(k, b)}, before, n - 1, k, b);
      OneMoreWaits(before, k, b, n - 1);
      s := OneMoreOrphan(before, n - 1, k, b);
    }
  }

  /** The renames of cancelled calls run one after the other. */
  lemma {:induction false} OrphansLand(verified: Verified, s: Sys, k: ImposterKey, b: Body, n: nat) returns (r: Sys)
    requires Reaches(verified, s) && s.orphans == Renames(k, b, n)
    ensures Reaches(verified, r) && r.tasks == s.tasks && r.held == s.held
    ensures r.log[LandedLate(k)] == s.log[LandedLate(k)] + n
    ensures forall m | m != LandedLate(k) :: r.log[m] == s.log[m]
    decreases n
  {
    if n == 0 {
      r := s;
    } else {
      var next := Perform(s, verified, OrphanRuns(n - 1, true));
      ReachStep(verified, s, OrphanRuns(n - 1, true), next);
      assert next.orphans == Renames(k, b, n - 1);
      r := OrphansLand(verified, next, k, b, n - 1);
    }
  }

  /** The bound of `KeyLandsOnce` is reached for every number of cancelled renames: each of them lands, and so does
      the next call, whose lookup came before them. */
  lemma EveryOrphanCanLand(k: ImposterKey, b: Body, n: nat) returns (s: Sys)
    ensures Reaches({(k, b)}, s) && s.log[Removed(k)] == 0 && s.log[Orphaned(k)] == n && Landings(s, k) == n + 1
  {
    var v := {(k, b)};
    var waiting, l := LastCallWaits(k, b, n);
    var late := OrphansLand(v, waiting, k, b, n);
    assert late.tasks[n] == Task(k, Renaming(l, b));
    s := RunRename(late, n, true);
    ReachStep(v, late, Advance(n, RenameRuns(true)), s);
    assert s.log == late.log + multiset{LandedBy(k)};
  }

  /** After the cancelled calls one more has its rename in flight. */
  lemma LastCallWaits(k: ImposterKey, b: Body, n: nat) returns (s: Sys, l: LockId)
    ensures Reaches({(k, b)}, s) && s.orphans == Renames(k, b, n)
    ensures n in s.tasks && s.tasks[n] == Task(k, Renaming(l, b))
    ensures s.log[Removed(k)] == 0 && s.log[Orphaned(k)] == n && Landings(s, k) == 0
  {
    var waiting := ManyOrphans(k, b, n);
    var s1 := WithLock(waiting, k);
    l := LockOf(waiting, k);
    WithLockKeeps(waiting, k);
    assert n !in waiting.tasks.Keys;
    ReachWaiting({(k, b)}, waiting, n, k);
    ReachRename({(k, b)}, s1, n, k, b, l);
    s := WithTask(s1.(held := s1.held[l := n]), n, k, Renaming(l, b));
  }

  // ----- the object -----

  /** The lock map, changed in place by `lock_for` and `release`; the rest of the system is only watched. */
  class LockTable {
    var locks: map<ImposterKey, LockId>
    var nextLock: LockId
    var tasks: map<TaskId, Task>
    ghost var rest: Sys

    ghost function Model(): Sys
      reads this
    {
      rest.(tasks := tasks, locks := locks, nextLock := nextLock)
    }

    constructor (store: map<ImposterKey, Body>)
      ensures Model() == Start(store)
    {
      locks, nextLock, tasks := map[], 0, map[];
      rest := Start(store);
    }

    /** The lock of the key's entry, which is created if absent; the caller now holds a handle on it. */
    method LockForKey(id: TaskId) returns (lock: LockId)
      requires id in tasks && tasks[id].phase.Asking?
      modifies this
      ensures Model() == LockFor(old(Model()), id)
      ensures tasks[id].phase == Waiting(lock) && locks[tasks[id].key] == lock
    {
      var key := tasks[id].key;
      if key in locks {
        lock := locks[key];
      } else {
        lock := nextLock;
        locks := locks[key := lock];
        nextLock := nextLock + 1;
      }
      tasks := tasks[id := Task(key, Waiting(lock))];
    }

    /** Drops the caller's handle, then the entry if the map holds the only one left. */
    method ReleaseKey(id: TaskId)
      requires id in tasks && tasks[id].phase.Releasing?
      modifies this
      ensures Model() == ReleaseLock(old(Model()), id, old(tasks[id].phase.result))
    {
      var key := tasks[id].key;
      tasks := tasks[id := Task(key, Finished(tasks[id].phase.result))];
      rest := rest.(lastDrop := rest.lastDrop[key := ByRelease]);
      if key in locks {
        var lock := locks[key];
        var holders := set t | t in tasks && HasHandle(tasks[t].phase) && tasks[t].phase.lock == lock;
        var refs := set k | k in locks && locks[k] == lock;
        assert holders == Holders(Model(), lock) && refs == MapRefs(Model(), lock);
        if |holders| + |refs| == 1 {
          locks := locks - {key};
        }
      }
    }
  }

  /** After a release the entry is there exactly when another call still holds a handle of the key. */
  lemma EntryFollowsHandles(s: Sys, id: TaskId)
    requires HandlesMatch(s) && id in s.tasks && s.tasks[id].phase.Releasing?
    ensures var k := s.tasks[id].key;
      k in ReleaseLock(s, id, s.tasks[id].phase.result).locks <==> exists t :: t in HandlesOf(s, k) && t != id
  {
    var k, result := s.tasks[id].key, s.tasks[id].phase.result;
    var r := SetPhase(s, id, Finished(result)).(lastDrop := s.lastDrop[k := ByRelease]);
    assert k in s.locks;
    assert HandlesMatch(r);
    CountOneMeansUnused(r, k);
    var l := s.locks[k];
    forall t ensures t in Holders(r, l) <==> t in HandlesOf(s, k) && t != id {
      if t in Holders(r, l) {
        assert s.tasks[t].key in s.locks && s.locks[s.tasks[t].key] == l;
      }
    }
  }
}
