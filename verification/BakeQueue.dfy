/**
  The bounded, coalescing bake queue and its parking worker (crates/catalyrst-bvimposters/src/bake.rs).
  Enqueuers and the worker interleave at their critical sections; `Notify` keeps at most one permit.
 */
module BakeQueue {
  import opened Wrappers
  import opened Keys
  import opened Sequences

  datatype Worker = Popping | FoundEmpty | Parked | Baking(tile: TileKey)

  /** `owed` counts enqueuers that pushed and have not notified yet; the last two fields are history. */
  datatype State = State(
    queue: seq<TileKey>,
    inflight: Option<TileKey>,
    permit: bool,
    worker: Worker,
    owed: nat,
    accepted: seq<TileKey>,
    started: seq<TileKey>)

  const IDLE := State([], None, false, Popping, 0, [], [])

  datatype Action = Enqueue(tile: TileKey) | NotifyOne | Pop | Poll | Finish

  function Admits(s: State, depth: nat, tile: TileKey): bool {
    tile !in s.queue && s.inflight != Some(tile) && |s.queue| < depth
  }

  function Step(s: State, depth: nat, act: Action): State {
    match act
    case Enqueue(tile) =>
      if Admits(s, depth, tile)
      then s.(queue := s.queue + [tile], owed := s.owed + 1, accepted := s.accepted + [tile])
      else s
    case NotifyOne =>
      if s.owed == 0 then s
      else if s.worker.Parked? then s.(owed := s.owed - 1, worker := Popping)
      else s.(owed := s.owed - 1, permit := true)
    case Pop =>
      if !s.worker.Popping? then s
      else if s.queue == [] then s.(inflight := None, worker := FoundEmpty)
      else s.(queue := s.queue[1..], inflight := Some(s.queue[0]), worker := Baking(s.queue[0]),
              started := s.started + [s.queue[0]])
    case Poll =>
      if !s.worker.FoundEmpty? then s
      else if s.permit then s.(permit := false, worker := Popping)
      else s.(worker := Parked)
    case Finish =>
      if s.worker.Baking? then s.(inflight := None, worker := Popping) else s
  }

  function Run(depth: nat, acts: seq<Action>): State {
    if acts == [] then IDLE else Step(Run(depth, acts[..|acts| - 1]), depth, acts[|acts| - 1])
  }

  /** Bounded, free of duplicates, never holding the tile being baked; baked in the order accepted. */
  ghost predicate Orderly(s: State, depth: nat) {
    && NoDuplicates(s.queue) && |s.queue| <= depth
    && (s.inflight.Some? ==> s.inflight.value !in s.queue)
    && (s.inflight == if s.worker.Baking? then Some(s.worker.tile) else None)
    && s.accepted == s.started + s.queue
    && (s.worker.Baking? ==> s.started != [] && s.started[|s.started| - 1] == s.worker.tile)
  }

  /** With work queued, an idle worker has a permit waiting or an enqueuer about to notify it. */
  ghost predicate NoLostWakeup(s: State) {
    && (s.worker.Parked? ==> !s.permit)
    && ((s.worker.Parked? || s.worker.FoundEmpty?) && s.queue != [] ==> s.permit || s.owed > 0)
  }

  lemma StepKeeps(s: State, depth: nat, act: Action)
    requires Orderly(s, depth) && NoLostWakeup(s)
    ensures Orderly(Step(s, depth, act), depth) && NoLostWakeup(Step(s, depth, act))
  {
    var r := Step(s, depth, act);
    if act.Pop? && s.worker.Popping? && s.queue != [] {
      assert s.queue == [s.queue[0]] + s.queue[1..];
      assert s.queue[0] !in s.queue[1..];
      assert s.started + s.queue == (s.started + [s.queue[0]]) + s.queue[1..];
    }
    if act.Enqueue? && Admits(s, depth, act.tile) {
      assert s.accepted + [act.tile] == s.started + (s.queue + [act.tile]);
    }
  }

  /** In every interleaving of enqueuers and the worker. */
  lemma {:induction false} EveryRunOrderly(depth: nat, acts: seq<Action>)
    ensures Orderly(Run(depth, acts), depth) && NoLostWakeup(Run(depth, acts))
  {
    if acts != [] {
      EveryRunOrderly(depth, acts[..|acts| - 1]);
      StepKeeps(Run(depth, acts[..|acts| - 1]), depth, acts[|acts| - 1]);
    }
  }

  /** The pending notifications, then the worker's own next look at its permit. */
  function Settle(s: State, depth: nat): State
    decreases s.owed
  {
    if s.owed > 0 then Settle(Step(s, depth, NotifyOne), depth) else Step(s, depth, Poll)
  }

  lemma {:induction false} SettleWakes(s: State, depth: nat)
    requires NoLostWakeup(s) && s.queue != []
    ensures var r := Settle(s, depth); r.queue == s.queue && (r.worker.Popping? || r.worker.Baking?)
    decreases s.owed
  {
    if s.owed > 0 {
      SettleWakes(Step(s, depth, NotifyOne), depth);
    }
  }

  /** No wake-up is lost: with work queued, once the owed notifications are made the worker is not idle. */
  lemma QueuedWorkIsPickedUp(depth: nat, acts: seq<Action>)
    requires Run(depth, acts).queue != []
    ensures var r := Settle(Run(depth, acts), depth); r.worker.Popping? || r.worker.Baking?
  {
    EveryRunOrderly(depth, acts);
    SettleWakes(Run(depth, acts), depth);
  }

  /** And no spinning: a worker with nothing to do and nobody about to notify it looks twice at most, then parks. */
  lemma QuietWorkerParks(s: State, depth: nat)
    requires s.queue == [] && s.owed == 0 && (s.worker.Popping? || s.worker.FoundEmpty?)
    ensures var once := Step(Step(s, depth, Pop), depth, Poll);
      var twice := Step(Step(once, depth, Pop), depth, Poll);
      && (if s.permit then once.worker.Popping? && !once.permit else once.worker.Parked?)
      && twice.worker.Parked? && !twice.permit && twice.queue == []
      && twice.inflight == if s.worker.Popping? || s.permit then None else s.inflight
  {
  }

  /** The queue object: the part of `enqueue` under the queue lock and the worker's two critical sections. */
  class Queue {
    const depth: nat
    var queue: seq<TileKey>
    var inflight: Option<TileKey>
    ghost var worker: Worker
    ghost var permit: bool
    ghost var owed: nat
    ghost var accepted: seq<TileKey>
    ghost var started: seq<TileKey>

    ghost function Model(): State
      reads this
    {
      State(queue, inflight, permit, worker, owed, accepted, started)
    }

    constructor (depth: nat)
      ensures this.depth == depth && Model() == IDLE
    {
      this.depth := depth;
      queue, inflight := [], None;
      worker, permit, owed, accepted, started := Popping, false, 0, [], [];
    }

    method EnqueueTile(tile: TileKey) returns (ok: bool)
      modifies this
      ensures ok <==> tile !in old(queue) && old(inflight) != Some(tile) && |old(queue)| < depth
      ensures queue == (if ok then old(queue) + [tile] else old(queue)) && inflight == old(inflight)
      ensures owed == old(owed) + if ok then 1 else 0
      ensures Model() == Step(old(Model()), depth, Enqueue(tile))
    {
      if tile in queue || inflight == Some(tile) {
        return false;
      }
      if |queue| >= depth {
        return false;
      }
      queue := queue + [tile];
      owed, accepted := owed + 1, accepted + [tile];
      ok := true;
    }

    method Take() returns (next: Option<TileKey>)
      requires worker.Popping?
      modifies this
      ensures old(queue) == [] ==> next == None && queue == [] && worker == FoundEmpty
      ensures old(queue) != [] ==>
        next == Some(old(queue)[0]) && queue == old(queue)[1..] && worker == Baking(old(queue)[0])
      ensures inflight == next
      ensures Model() == Step(old(Model()), depth, Pop)
    {
      next := if queue == [] then None else Some(queue[0]);
      inflight := next;
      if queue == [] {
        worker := FoundEmpty;
      } else {
        worker, started := Baking(queue[0]), started + [queue[0]];
        queue := queue[1..];
      }
    }

    method Done()
      requires worker.Baking?
      modifies this
      ensures inflight == None && worker == Popping && queue == old(queue)
      ensures Model() == Step(old(Model()), depth, Finish)
    {
      inflight := None;
      worker := Popping;
    }
  }
}
