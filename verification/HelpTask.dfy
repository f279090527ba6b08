/**
 The student-help worker (agent/help_tasks.py): claim, room lease, publication
 and compensation, for any number of workers on one help request, interleaved
 with other users of the room.
 */
module HelpTask {
  import opened Tables

  datatype Status = Queued | Pending | Running | Completed | CompletedWithFallback | Failed

  datatype Request = Request(status: Status, runId: Option<nat>, messageId: Option<nat>, hasResponse: bool)

  datatype RoomState = Open | Intervening | Closed

  /**
   The lease columns of groups, and what other tables and the clock say about the
   lease: `pipeline`: its token belongs to a strategy pipeline; `preemptible`: that
   pipeline is active, unpublished, in the request's scope and of lower priority;
   `expired`: its time is up.
   */
  datatype Room = Room(state: RoomState, token: Option<nat>, owner: Option<int>, pipeline: bool, preemptible: bool,
      expired: bool)

  datatype World = World(request: Option<Request>, room: Room, nextToken: nat)

  /** Owner number a help request leases under. */
  function OwnerOf(help: nat): int { 0 - help }

  const FREE_ROOM := Room(Open, None, None, false, false, false)

  predicate Waiting(s: Status) { s.Queued? || s.Pending? }

  predicate Done(s: Status) { s.Completed? || s.CompletedWithFallback? }

  predicate Terminal(s: Status) { Done(s) || s.Failed? }

  predicate HeldUnder(room: Room, token: nat) { room.state.Intervening? && room.token == Some(token) }

  // ---------------------------------------------------------------- single statements

  /** The idempotency tests before the claim. */
  predicate WorthClaiming(w: World) {
    w.request.Some? && !Done(w.request.value.status) && w.request.value.runId.None?
    && w.request.value.messageId.None? && !w.request.value.hasResponse
  }

  predicate Claimable(w: World) {
    w.request.Some? && w.request.value.runId.None? && w.request.value.messageId.None? && Waiting(w.request.value.status)
  }

  function SetStatus(w: World, s: Status): World {
    if w.request.Some? then w.(request := Some(w.request.value.(status := s))) else w
  }

  /** preempt_for_student_help: ends the pipelines the request outranks and opens the room if one of them leases it. */
  function Preempt(w: World): World {
    if w.request.Some? && w.room.preemptible then w.(room := FREE_ROOM) else w
  }

  /** Reclaiming an expired lease also fails the help request the lease belonged to. */
  function ExpireLease(help: nat, w: World): World {
    if !w.room.state.Intervening? || w.room.token.None? || !w.room.expired then w else
    var freed := w.(room := FREE_ROOM);
    if w.room.owner == Some(OwnerOf(help)) && !w.room.pipeline && w.request.Some? && !Terminal(w.request.value.status)
    then SetStatus(freed, Failed) else freed
  }

  /** The conditional update of RoomLeaseService.acquire: an open room gets a fresh token. */
  function Acquire(w: World, owner: int, pipeline: bool, preemptible: bool): World {
    if w.room.state.Open?
    then w.(room := Room(Intervening, Some(w.nextToken), Some(owner), pipeline, pipeline && preemptible, false),
        nextToken := w.nextToken + 1)
    else w
  }

  /** RoomLeaseService.release: conditional on the token. */
  function Release(w: World, token: nat): World {
    if HeldUnder(w.room, token) then w.(room := FREE_ROOM) else w
  }

  /** _release_help_room_lock_for_request: frees whatever lease carries owner -help. */
  function ReleaseForRequest(w: World, help: nat): World {
    if w.request.Some? && w.room.state.Intervening? && w.room.owner == Some(OwnerOf(help)) && w.room.token.Some?
    then Release(w, w.room.token.value) else w
  }

  /** A stored publication for this request short-cuts the publisher. */
  predicate AlreadyPublished(w: World) {
    w.request.Some? && (w.request.value.runId.Some? || w.request.value.messageId.Some?)
  }

  /** The publisher insists on the lease, and on its time not being up. */
  predicate MayPublish(w: World, token: nat) { w.request.Some? && HeldUnder(w.room, token) && !w.room.expired }

  /** The publishing transaction: completes the request and frees the lease together. */
  function Publish(w: World, token: nat, fallback: bool, messageId: nat): World {
    if !MayPublish(w, token) || AlreadyPublished(w) then w else
    var status := if fallback then CompletedWithFallback else Completed;
    w.(request := Some(Request(status, Some(messageId), Some(messageId), true)), room := FREE_ROOM)
  }

  // ---------------------------------------------------------------- one worker

  datatype Site = NoSuggestion | Refused | Excepted

  datatype Pc =
    | Start | Loaded | Claimed | Preempted | Reclaimed | NoLock | Locked(token: nat) | Suggested(token: nat)
    | Failing(token: nat, site: Site) | Releasing(token: nat, reraise: bool)
    | Handler | HandlerMark | Finished

  /** `claimed` and `token` remember what the worker won. */
  datatype Worker = Worker(pc: Pc, claimed: bool, token: Option<nat>)

  datatype PublishOutcome = Raises | Refuses | Publishes(fallback: bool, messageId: nat)

  /** What every call the worker may make turns out to do. */
  datatype Script = Script(
    loadRaises: bool, claimRaises: bool, setupRaises: bool,
    preemptRaises: bool, reclaimRaises: bool, lockRaises: bool, prepareRaises: bool,
    suggestion: bool, publish: PublishOutcome, noLockMarkRaises: bool, noSuggestionMarkRaises: bool,
    refusedMarkRaises: bool, exceptMarkRaises: bool, handlerMarkRaises: bool)

  function MarkRaises(s: Script, site: Site): bool {
    match site
    case NoSuggestion => s.noSuggestionMarkRaises
    case Refused => s.refusedMarkRaises
    case Excepted => s.exceptMarkRaises
  }

  predicate BeforeLease(pc: Pc) {
    pc.Start? || pc.Loaded? || pc.Claimed? || pc.Preempted? || pc.Reclaimed? || pc.NoLock?
  }

  predicate Leasing(pc: Pc) { pc.Locked? || pc.Suggested? || pc.Failing? || pc.Releasing? }

  /** Loading and claiming the request. */
  function Claiming(w: World, k: Worker, s: Script): (World, Worker)
    requires k.pc.Start? || k.pc.Loaded?
  {
    match k.pc
    case Start => (w, k.(pc := if s.loadRaises then Handler else if WorthClaiming(w) then Loaded else Finished))
    case Loaded =>
      if s.claimRaises then (w, k.(pc := Handler))
      else if Claimable(w) then (SetStatus(w, Running), k.(pc := Claimed, claimed := true))
      else (w, k.(pc := Finished))
  }

  /** _acquire_help_room_lock: preempt, reclaim, acquire, each its own transaction; a raise counts as no lock. */
  function Acquiring(help: nat, w: World, k: Worker, s: Script): (World, Worker)
    requires k.pc.Claimed? || k.pc.Preempted? || k.pc.Reclaimed? || k.pc.NoLock?
  {
    match k.pc
    case Claimed =>
      if s.setupRaises then (w, k.(pc := Handler))
      else if s.preemptRaises then (w, k.(pc := NoLock))
      else (Preempt(w), k.(pc := Preempted))
    case Preempted =>
      if s.reclaimRaises then (w, k.(pc := NoLock)) else (ExpireLease(help, w), k.(pc := Reclaimed))
    case Reclaimed =>
      if s.lockRaises || !w.room.state.Open? then (w, k.(pc := NoLock))
      else (Acquire(w, OwnerOf(help), false, false), k.(pc := Locked(w.nextToken), token := Some(w.nextToken)))
    case NoLock => if s.noLockMarkRaises then (w, k.(pc := Handler)) else (SetStatus(w, Failed), k.(pc := Finished))
  }

  /** Everything done while the lease is held. */
  function WhileLeased(w: World, k: Worker, s: Script): (World, Worker)
    requires Leasing(k.pc)
  {
    match k.pc
    case Locked(t) =>
      (w, k.(pc := if s.prepareRaises then Handler else if s.suggestion then Suggested(t)
          else Failing(t, NoSuggestion)))
    case Suggested(t) =>
      (match s.publish
       case Raises => (w, k.(pc := Failing(t, Excepted)))
       case Refuses => (w, k.(pc := Failing(t, Refused)))
       case Publishes(fallback, id) =>
         if MayPublish(w, t) then (Publish(w, t, fallback, id), k.(pc := Releasing(t, false)))
         else (w, k.(pc := Failing(t, Refused))))
    case Failing(t, site) =>
      if MarkRaises(s, site) then (w, k.(pc := if site.Refused? then Failing(t, Excepted) else Handler))
      else (SetStatus(w, Failed), k.(pc := Releasing(t, site.Excepted?)))
    case Releasing(t, reraise) => (Release(w, t), k.(pc := if reraise then Handler else Finished))
  }

  /** The outermost exception handler. */
  function Handling(help: nat, w: World, k: Worker, s: Script): (World, Worker)
    requires k.pc.Handler? || k.pc.HandlerMark?
  {
    if k.pc.Handler? then (ReleaseForRequest(w, help), k.(pc := HandlerMark))
    else (if s.handlerMarkRaises then w else SetStatus(w, Failed), k.(pc := Finished))
  }

  /** Next statement of a worker. A step at Finished does nothing. */
  function WorkerStep(help: nat, w: World, k: Worker, s: Script): (World, Worker) {
    if k.pc.Finished? then (w, k)
    else if k.pc.Start? || k.pc.Loaded? then Claiming(w, k, s)
    else if BeforeLease(k.pc) then Acquiring(help, w, k, s)
    else if Leasing(k.pc) then WhileLeased(w, k, s)
    else Handling(help, w, k, s)
  }

  // ---------------------------------------------------------------- many workers

  datatype System = System(help: nat, world: World, workers: map<int, Worker>)

  /**
   Other users of the room appear through Lease, Standing (their pipeline's claim to
   the room changes), Unlease and Expire; Age is the passing of a lease's time.
   */
  datatype Event =
    | Spawn(id: int)
    | Work(id: int, script: Script)
    | Lease(owner: int, preemptible: bool)
    | Standing(preemptible: bool)
    | Age
    | Unlease
    | Expire

  predicate WorkerToken(sys: System, token: nat) {
    exists id :: id in sys.workers && sys.workers[id].token == Some(token)
  }

  /** What the events other than worker steps do to the room and the request. */
  function Outside(sys: System, e: Event): World {
    var room := sys.world.room;
    match e
    case Lease(owner, preemptible) => Acquire(sys.world, owner, true, preemptible)
    case Standing(preemptible) =>
      if room.state.Intervening? && room.token.Some? && room.pipeline
      then sys.world.(room := room.(preemptible := preemptible)) else sys.world
    case Age =>
      if room.state.Intervening? && room.token.Some? then sys.world.(room := room.(expired := true)) else sys.world
    case Unlease =>
      if room.token.Some? && !WorkerToken(sys, room.token.value)
      then Release(sys.world, room.token.value) else sys.world
    case Expire => ExpireLease(sys.help, sys.world)
    case _ => sys.world
  }

  function SystemStep(sys: System, e: Event): System {
    match e
    case Spawn(id) => if id in sys.workers then sys else sys.(workers := sys.workers[id := FRESH_WORKER])
    case Work(id, script) =>
      if id !in sys.workers then sys else
      var (w, k) := WorkerStep(sys.help, sys.world, sys.workers[id], script);
      sys.(world := w, workers := sys.workers[id := k])
    case _ => sys.(world := Outside(sys, e))
  }

  const FRESH_WORKER := Worker(Start, false, None)

  function SystemRun(sys: System, events: seq<Event>): System {
    if events == [] then sys else SystemStep(SystemRun(sys, events[..|events| - 1]), events[|events| - 1])
  }

  /** No call raises before the claim has committed. */
  predicate CalmUntilClaim(e: Event) { e.Work? ==> !e.script.loadRaises && !e.script.claimRaises }

  // ---------------------------------------------------------------- lock invariant

  /** May still free the lease it acquired. */
  predicate Armed(pc: Pc) { Leasing(pc) || pc.Handler? }

  predicate PcMatchesToken(k: Worker) {
    && (Leasing(k.pc) ==> k.token == Some(k.pc.token))
    && (BeforeLease(k.pc) ==> k.token.None?)
  }

  predicate RoomOk(w: World) {
    && (w.room.token.Some? ==> w.room.state.Intervening? && w.room.token.value < w.nextToken)
    && (w.room.preemptible ==> w.room.token.Some? && w.room.pipeline)
    && (w.room.expired ==> w.room.token.Some?)
  }

  /** While the room is held under the worker's token, the worker can still free it and the owner number says so. */
  predicate LockOk(help: nat, w: World, k: Worker) {
    && PcMatchesToken(k)
    && (BeforeLease(k.pc) && !k.pc.Start? ==> w.request.Some?)
    && (k.token.Some? ==>
          && w.request.Some?
          && k.token.value < w.nextToken
          && (w.room.token == k.token ==> Armed(k.pc) && w.room.owner == Some(OwnerOf(help)) && !w.room.pipeline))
  }

  predicate TokensDiffer(j: Worker, k: Worker) { j.token.Some? ==> j.token != k.token }

  ghost predicate LockInv(sys: System) {
    && RoomOk(sys.world)
    && (forall id :: id in sys.workers ==> LockOk(sys.help, sys.world, sys.workers[id]))
    && (forall i, j :: i in sys.workers && j in sys.workers && i != j ==> TokensDiffer(sys.workers[i], sys.workers[j]))
  }

  /** What every step of a worker does to tokens and the room, as far as others are concerned. */
  predicate RoomMove(w: World, k: Worker, after: (World, Worker)) {
    && w.nextToken <= after.0.nextToken
    && (w.request.Some? ==> after.0.request.Some?)
    && (after.1.token == k.token || (after.1.token == Some(w.nextToken) && w.nextToken < after.0.nextToken))
    && (after.0.room == w.room || after.0.room.token.None? || after.0.room.token.value == w.nextToken)
  }

  /** What a worker's own step has to leave behind. */
  predicate LockStepOk(help: nat, w: World, k: Worker, after: (World, Worker)) {
    RoomOk(after.0) && LockOk(help, after.0, after.1) && RoomMove(w, k, after)
  }

  lemma ClaimingLock(help: nat, w: World, k: Worker, s: Script)
    requires RoomOk(w) && LockOk(help, w, k) && (k.pc.Start? || k.pc.Loaded?)
    ensures LockStepOk(help, w, k, Claiming(w, k, s))
  {}

  lemma AcquiringLock(help: nat, w: World, k: Worker, s: Script)
    requires RoomOk(w) && LockOk(help, w, k) && (k.pc.Claimed? || k.pc.Preempted? || k.pc.Reclaimed? || k.pc.NoLock?)
    ensures LockStepOk(help, w, k, Acquiring(help, w, k, s))
  {}

  lemma WhileLeasedLock(help: nat, w: World, k: Worker, s: Script)
    requires RoomOk(w) && LockOk(help, w, k) && Leasing(k.pc)
    ensures LockStepOk(help, w, k, WhileLeased(w, k, s))
  {}

  lemma HandlingLock(help: nat, w: World, k: Worker, s: Script)
    requires RoomOk(w) && LockOk(help, w, k) && (k.pc.Handler? || k.pc.HandlerMark?)
    ensures LockStepOk(help, w, k, Handling(help, w, k, s))
  {}

  lemma WorkerStepLock(help: nat, w: World, k: Worker, s: Script)
    requires RoomOk(w) && LockOk(help, w, k)
    ensures LockStepOk(help, w, k, WorkerStep(help, w, k, s))
  {
    if k.pc.Finished? {
    } else if k.pc.Start? || k.pc.Loaded? {
      ClaimingLock(help, w, k, s);
    } else if BeforeLease(k.pc) {
      AcquiringLock(help, w, k, s);
    } else if Leasing(k.pc) {
      WhileLeasedLock(help, w, k, s);
    } else {
      HandlingLock(help, w, k, s);
    }
  }

  /** Whoever moves the room: a worker that holds it keeps its grip or loses the room altogether. */
  lemma MoveKeepsOtherLock(help: nat, w: World, k: Worker, after: (World, Worker), j: Worker)
    requires RoomOk(w) && LockOk(help, w, j) && TokensDiffer(j, k) && RoomMove(w, k, after)
    ensures LockOk(help, after.0, j) && TokensDiffer(j, after.1) && TokensDiffer(after.1, j)
  {}

  lemma WorkKeepsLockInv(sys: System, id: int, s: Script)
    requires LockInv(sys) && id in sys.workers
    ensures LockInv(SystemStep(sys, Work(id, s)))
  {
    var after := WorkerStep(sys.help, sys.world, sys.workers[id], s);
    WorkerStepLock(sys.help, sys.world, sys.workers[id], s);
    forall j | j in sys.workers && j != id
      ensures LockOk(sys.help, after.0, sys.workers[j])
              && TokensDiffer(sys.workers[j], after.1) && TokensDiffer(after.1, sys.workers[j])
    {
      MoveKeepsOtherLock(sys.help, sys.world, sys.workers[id], after, sys.workers[j]);
    }
  }

  /** What the room's other users do to a lease a worker holds: at most its time runs out, or it ends. */
  lemma OutsideKeepsLock(sys: System, e: Event, k: Worker)
    requires RoomOk(sys.world) && LockOk(sys.help, sys.world, k)
    ensures RoomOk(Outside(sys, e)) && LockOk(sys.help, Outside(sys, e), k)
  {}

  lemma OutsideKeepsRoom(sys: System, e: Event)
    requires RoomOk(sys.world)
    ensures RoomOk(Outside(sys, e))
  {}

  lemma StepKeepsLockInv(sys: System, e: Event)
    requires LockInv(sys)
    ensures LockInv(SystemStep(sys, e))
  {
    match e
    case Spawn(id) =>
    case Work(id, script) => if id in sys.workers { WorkKeepsLockInv(sys, id, script); }
    case _ =>
      OutsideKeepsRoom(sys, e);
      forall id | id in sys.workers ensures LockOk(sys.help, Outside(sys, e), sys.workers[id]) {
        OutsideKeepsLock(sys, e, sys.workers[id]);
      }
  }

  lemma {:induction false} RunKeepsLockInv(sys: System, events: seq<Event>)
    requires LockInv(sys)
    ensures LockInv(SystemRun(sys, events))
    ensures SystemRun(sys, events).help == sys.help
  {
    if events != [] {
      RunKeepsLockInv(sys, events[..|events| - 1]);
      StepKeepsLockInv(SystemRun(sys, events[..|events| - 1]), events[|events| - 1]);
    }
  }

  /**
   A finished worker leaves no lease behind: whatever calls failed or raised and
   whoever else used the room, the room is not held under the token it acquired.
   */
  lemma FinishedWorkerHoldsNoLease(sys: System, events: seq<Event>, id: int)
    requires LockInv(sys)
    requires var after := SystemRun(sys, events); id in after.workers && after.workers[id].pc.Finished?
    ensures var after := SystemRun(sys, events);
            after.workers[id].token.Some? ==> !HeldUnder(after.world.room, after.workers[id].token.value)
  {
    RunKeepsLockInv(sys, events);
  }

  /** The room is leased to the help request by one of its workers. */
  predicate HelpLease(help: nat, room: Room) {
    room.state.Intervening? && room.token.Some? && room.owner == Some(OwnerOf(help)) && !room.pipeline
  }

  /** A lease in the help request's name is some worker's. */
  ghost predicate HelpLeaseOwned(sys: System) {
    HelpLease(sys.help, sys.world.room) ==> WorkerToken(sys, sys.world.room.token.value)
  }

  /** A worker's step makes a help lease only as its own, and never gives up a token. */
  lemma WorkerStepLease(help: nat, w: World, k: Worker, s: Script)
    ensures var after := WorkerStep(help, w, k, s);
            && (HelpLease(help, after.0.room) ==> after.0.room == w.room || after.1.token == after.0.room.token)
            && (k.token.Some? && PcMatchesToken(k) ==> after.1.token == k.token)
  {}

  lemma StepKeepsHelpLeaseOwned(sys: System, e: Event)
    requires LockInv(sys) && HelpLeaseOwned(sys)
    ensures HelpLeaseOwned(SystemStep(sys, e))
  {
    var after := SystemStep(sys, e);
    if HelpLease(sys.help, after.world.room) {
      if e.Work? && e.id in sys.workers {
        WorkerStepLease(sys.help, sys.world, sys.workers[e.id], e.script);
        assert after.workers[e.id].token == after.world.room.token || after.world.room == sys.world.room;
      }
      if after.world.room.token == sys.world.room.token && HelpLease(sys.help, sys.world.room) {
        var id :| id in sys.workers && sys.workers[id].token == sys.world.room.token;
        assert id in after.workers && after.workers[id].token == sys.world.room.token;
      }
    }
  }

  /**
   In any run from a system without workers and without a help lease, a room leased
   in the help request's name is held by a worker of it that has not finished.
   */
  lemma {:induction false} HelpLeaseIsHeld(sys: System, events: seq<Event>)
    requires RoomOk(sys.world) && sys.workers == map[] && !HelpLease(sys.help, sys.world.room)
    ensures LockInv(SystemRun(sys, events)) && HelpLeaseOwned(SystemRun(sys, events))
    ensures var after := SystemRun(sys, events);
            HelpLease(sys.help, after.world.room) ==>
              exists id :: id in after.workers && after.workers[id].token == after.world.room.token
                  && !after.workers[id].pc.Finished?
  {
    RunKeepsLockInv(sys, events);
    if events != [] {
      HelpLeaseIsHeld(sys, events[..|events| - 1]);
      RunKeepsLockInv(sys, events[..|events| - 1]);
      StepKeepsHelpLeaseOwned(SystemRun(sys, events[..|events| - 1]), events[|events| - 1]);
    }
  }

  /** The worker's next step takes the lease away before it tries to acquire. */
  predicate MakesRoom(w: World, k: Worker, s: Script) {
    || (k.pc.Claimed? && !s.setupRaises && !s.preemptRaises && w.room.preemptible)
    || (k.pc.Preempted? && !s.reclaimRaises && w.room.expired)
  }

  /**
   A worker step changes a lease that is no worker's exactly when it preempts a
   pipeline the request outranks, reclaims an expired lease, or runs the exception
   handler while the lease carries the request's number as owner, -help. The last
   was not meant: strategy pipelines use negated ids as owners too.
   */
  lemma ForeignLeaseFreedExactly(sys: System, id: int, s: Script)
    requires LockInv(sys) && id in sys.workers && sys.world.room.token.Some?
    requires !WorkerToken(sys, sys.world.room.token.value)
    ensures SystemStep(sys, Work(id, s)).world.room != sys.world.room <==>
            || MakesRoom(sys.world, sys.workers[id], s)
            || (sys.workers[id].pc.Handler? && sys.world.request.Some?
                && sys.world.room.owner == Some(OwnerOf(sys.help)))
    ensures SystemStep(sys, Work(id, s)).world.room == sys.world.room
        || SystemStep(sys, Work(id, s)).world.room == FREE_ROOM
  {
    assert LockOk(sys.help, sys.world, sys.workers[id]);
    hide LockInv;
  }

  // ---------------------------------------------------------------- claim and status

  predicate RequestOk(help: nat, w: World) {
    && w.request.Some?
    && (var r := w.request.value;
        && (Done(r.status) <==> r.runId.Some?)
        && (Done(r.status) <==> r.messageId.Some?)
        && (Done(r.status) <==> r.hasResponse)
        && (Waiting(r.status) ==> !HelpLease(help, w.room)))
  }

  predicate ClaimOk(help: nat, w: World, k: Worker)
    requires w.request.Some?
  {
    var status := w.request.value.status;
    && (k.claimed <==> !(k.pc.Start? || k.pc.Loaded? || (k.pc.Finished? && !k.claimed)))
    && (k.token.Some? ==> k.claimed)
    && (k.claimed ==> !Waiting(status))
    && (k.claimed && k.token.None? ==> !HelpLease(help, w.room))
    && (k.pc.Claimed? || k.pc.Preempted? || k.pc.Reclaimed? ==> k.token.None? && status.Running?)
    && (k.claimed && Done(status) ==> k.pc.Finished? || (k.pc.Releasing? && !k.pc.reraise))
    && (k.token.Some? && w.room.token == k.token && (k.pc.Locked? || k.pc.Suggested?) ==> status.Running?)
  }

  ghost predicate ClaimInv(sys: System) {
    && LockInv(sys)
    && RequestOk(sys.help, sys.world)
    && (forall id :: id in sys.workers ==> ClaimOk(sys.help, sys.world, sys.workers[id]))
    && (forall i, j :: i in sys.workers && j in sys.workers && i != j && sys.workers[i].claimed ==>
        !sys.workers[j].claimed)
  }

  /** The moves a status can make. */
  predicate StatusMove(before: Status, after: Status) {
    after == before || (Waiting(before) && after.Running?) || (before.Running? && Terminal(after))
  }

  predicate Calm(s: Script) { !s.loadRaises && !s.claimRaises }

  /** What a calm step of the worker does to the request. */
  predicate ClaimStepOk(help: nat, w: World, k: Worker, after: (World, Worker)) {
    && RequestOk(help, after.0) && w.request.Some? && ClaimOk(help, after.0, after.1)
    && StatusMove(w.request.value.status, after.0.request.value.status)
    && (k.claimed ==> after.1.claimed)
    && (after.1.claimed && !k.claimed ==> Waiting(w.request.value.status))
  }

  predicate ClaimPre(help: nat, w: World, k: Worker) {
    RoomOk(w) && LockOk(help, w, k) && RequestOk(help, w) && ClaimOk(help, w, k)
  }

  lemma ClaimingClaim(help: nat, w: World, k: Worker, s: Script)
    requires ClaimPre(help, w, k) && Calm(s) && (k.pc.Start? || k.pc.Loaded?)
    ensures ClaimStepOk(help, w, k, Claiming(w, k, s))
  {}

  lemma AcquiringClaim(help: nat, w: World, k: Worker, s: Script)
    requires ClaimPre(help, w, k) && Calm(s) && (k.pc.Claimed? || k.pc.Preempted? || k.pc.Reclaimed? || k.pc.NoLock?)
    ensures ClaimStepOk(help, w, k, Acquiring(help, w, k, s))
  {}

  lemma WhileLeasedClaim(help: nat, w: World, k: Worker, s: Script)
    requires ClaimPre(help, w, k) && Calm(s) && Leasing(k.pc)
    ensures ClaimStepOk(help, w, k, WhileLeased(w, k, s))
  {}

  lemma HandlingClaim(help: nat, w: World, k: Worker, s: Script)
    requires ClaimPre(help, w, k) && Calm(s) && (k.pc.Handler? || k.pc.HandlerMark?)
    ensures ClaimStepOk(help, w, k, Handling(help, w, k, s))
  {}

  lemma WorkerStepClaim(help: nat, w: World, k: Worker, s: Script)
    requires ClaimPre(help, w, k) && Calm(s)
    ensures ClaimStepOk(help, w, k, WorkerStep(help, w, k, s))
  {
    if k.pc.Finished? {
    } else if k.pc.Start? || k.pc.Loaded? {
      ClaimingClaim(help, w, k, s);
    } else if BeforeLease(k.pc) {
      AcquiringClaim(help, w, k, s);
    } else if Leasing(k.pc) {
      WhileLeasedClaim(help, w, k, s);
    } else {
      HandlingClaim(help, w, k, s);
    }
  }

  /** A calm step of a worker that has not claimed touches request and room only by claiming. */
  lemma UnclaimedStep(help: nat, w: World, k: Worker, s: Script)
    requires ClaimPre(help, w, k) && Calm(s) && !k.claimed
    ensures var after := WorkerStep(help, w, k, s);
            if after.1.claimed
            then after.0 == SetStatus(w, Running) && Waiting(w.request.value.status)
            else after.0 == w
  {}

  /** What another worker's step leaves to a worker that has not claimed, or has when the other has not. */
  lemma WorkerStepOtherClaim(help: nat, w: World, k: Worker, s: Script, j: Worker)
    requires ClaimPre(help, w, k) && ClaimPre(help, w, j) && TokensDiffer(j, k) && Calm(s)
    requires k.claimed ==> !j.claimed
    ensures ClaimOk(help, WorkerStep(help, w, k, s).0, j)
  {
    if !k.claimed { UnclaimedStep(help, w, k, s); }
  }

  lemma WorkKeepsClaimInv(sys: System, id: int, s: Script)
    requires ClaimInv(sys) && id in sys.workers && Calm(s)
    ensures ClaimInv(SystemStep(sys, Work(id, s)))
    ensures StatusMove(sys.world.request.value.status, SystemStep(sys, Work(id, s)).world.request.value.status)
  {
    WorkKeepsLockInv(sys, id, s);
    WorkerStepClaim(sys.help, sys.world, sys.workers[id], s);
    var after := SystemStep(sys, Work(id, s));
    forall j | j in sys.workers && j != id ensures ClaimOk(sys.help, after.world, sys.workers[j]) {
      WorkerStepOtherClaim(sys.help, sys.world, sys.workers[id], s, sys.workers[j]);
    }
  }

  lemma OutsideKeepsRequest(sys: System, e: Event)
    requires RoomOk(sys.world) && RequestOk(sys.help, sys.world)
    ensures RequestOk(sys.help, Outside(sys, e))
    ensures StatusMove(sys.world.request.value.status, Outside(sys, e).request.value.status)
  {}

  lemma OutsideKeepsClaim(sys: System, e: Event, k: Worker)
    requires ClaimPre(sys.help, sys.world, k)
    ensures Outside(sys, e).request.Some? && ClaimOk(sys.help, Outside(sys, e), k)
  {}

  lemma OutsideStepKeepsClaimInv(sys: System, e: Event)
    requires ClaimInv(sys) && !e.Work?
    ensures ClaimInv(SystemStep(sys, e))
    ensures StatusMove(sys.world.request.value.status, SystemStep(sys, e).world.request.value.status)
  {
    StepKeepsLockInv(sys, e);
    OutsideKeepsRequest(sys, e);
    if !e.Spawn? {
      forall id | id in sys.workers ensures ClaimOk(sys.help, Outside(sys, e), sys.workers[id]) {
        OutsideKeepsClaim(sys, e, sys.workers[id]);
      }
    }
  }

  lemma {:induction false} RunKeepsClaimInv(sys: System, events: seq<Event>)
    requires ClaimInv(sys) && forall i :: 0 <= i < |events| ==> CalmUntilClaim(events[i])
    ensures ClaimInv(SystemRun(sys, events))
  {
    if events != [] {
      var before, e := SystemRun(sys, events[..|events| - 1]), events[|events| - 1];
      RunKeepsClaimInv(sys, events[..|events| - 1]);
      StepKeepsClaimInv(before, e);
    }
  }

  /** Every event moves the status only along waiting -> running -> terminal, and keeps the invariant. */
  lemma StepKeepsClaimInv(sys: System, e: Event)
    requires ClaimInv(sys) && CalmUntilClaim(e)
    ensures ClaimInv(SystemStep(sys, e))
    ensures StatusMove(sys.world.request.value.status, SystemStep(sys, e).world.request.value.status)
  {
    if !e.Work? {
      OutsideStepKeepsClaimInv(sys, e);
    } else if e.id in sys.workers {
      WorkKeepsClaimInv(sys, e.id, e.script);
    }
  }

  /**
   If nothing raises before the claim: of all workers ever started at most one
   claims, and a terminal status is final in every reachable state.
   */
  lemma OneClaimAndFinalStatus(sys: System, first: seq<Event>, rest: seq<Event>)
    requires ClaimInv(sys)
    requires forall i :: 0 <= i < |first| ==> CalmUntilClaim(first[i])
    requires forall i :: 0 <= i < |rest| ==> CalmUntilClaim(rest[i])
    ensures var mid := SystemRun(sys, first);
            var end := SystemRun(mid, rest);
            && (forall i, j :: i in end.workers && j in end.workers ==>
                  end.workers[i].claimed && end.workers[j].claimed ==> i == j)
            && mid.world.request.Some? && end.world.request.Some?
            && (Terminal(mid.world.request.value.status) ==>
                  end.world.request.value.status == mid.world.request.value.status)
  {
    RunKeepsClaimInv(sys, first);
    var mid := SystemRun(sys, first);
    RunKeepsClaimInv(mid, rest);
    if Terminal(mid.world.request.value.status) {
      TerminalStays(mid, rest);
    }
  }

  lemma {:induction false} TerminalStays(sys: System, events: seq<Event>)
    requires ClaimInv(sys) && Terminal(sys.world.request.value.status)
    requires forall i :: 0 <= i < |events| ==> CalmUntilClaim(events[i])
    ensures SystemRun(sys, events).world.request.Some?
    ensures SystemRun(sys, events).world.request.value.status == sys.world.request.value.status
  {
    if events != [] {
      TerminalStays(sys, events[..|events| - 1]);
      RunKeepsClaimInv(sys, events[..|events| - 1]);
      StepKeepsClaimInv(SystemRun(sys, events[..|events| - 1]), events[|events| - 1]);
    }
  }

  /** A worker that starts after the request became terminal changes nothing at any of its steps. */
  lemma LateWorkerIsIdle(sys: System, id: int, s: Script)
    requires ClaimInv(sys) && Terminal(sys.world.request.value.status) && Calm(s)
    requires id in sys.workers && !sys.workers[id].claimed
    ensures var after := SystemStep(sys, Work(id, s));
            after.world == sys.world && !after.workers[id].claimed
  {
    assert ClaimOk(sys.help, sys.world, sys.workers[id]);
  }

  // ---------------------------------------------------------------- a job run on its own

  function Rank(pc: Pc): nat {
    match pc
    case Start => 14 case Loaded => 13 case Claimed => 12 case Preempted => 11 case Reclaimed => 10 case NoLock => 9
    case Locked(_) => 8 case Suggested(_) => 7
    case Failing(_, site) => if site.Refused? then 6 else 5
    case Releasing(_, _) => 4 case Handler => 3 case HandlerMark => 2 case Finished => 0
  }

  /** The rest of a worker's run when nobody else acts. */
  function RunAlone(help: nat, w: World, k: Worker, s: Script): World
    decreases Rank(k.pc)
  {
    if k.pc.Finished? then w else
    var (w', k') := WorkerStep(help, w, k, s);
    RunAlone(help, w', k', s)
  }

  /** The room is open or leased by this worker. */
  predicate RoomAvailable(w: World, k: Worker) {
    w.room.state.Open? || (k.token.Some? && HeldUnder(w.room, k.token.value))
  }

  lemma StepLowersRank(help: nat, w: World, k: Worker, s: Script)
    requires !k.pc.Finished?
    ensures Rank(WorkerStep(help, w, k, s).1.pc) < Rank(k.pc)
  {}

  lemma AloneNext(help: nat, w: World, k: Worker, s: Script, next: (World, Worker))
    requires !k.pc.Finished? && next == WorkerStep(help, w, k, s)
    ensures RunAlone(help, w, k, s) == RunAlone(help, next.0, next.1, s)
  {}

  lemma StepKeepsRoomAvailable(help: nat, w: World, k: Worker, s: Script)
    requires LockOk(help, w, k) && RoomAvailable(w, k)
    ensures var (w', k') := WorkerStep(help, w, k, s); RoomAvailable(w', k')
  {
    if k.pc.Finished? {
    } else if BeforeLease(k.pc) {
      assert w.room.state.Open?;
    } else if Leasing(k.pc) {
    } else {
    }
  }

  /** A step inside the room: the premises of the next one, with the step itself out of sight. */
  lemma AvailableStep(help: nat, w: World, k: Worker, s: Script) returns (w': World, k': Worker)
    requires RoomOk(w) && LockOk(help, w, k) && RoomAvailable(w, k) && !k.pc.Finished?
    ensures RoomOk(w') && LockOk(help, w', k') && RoomAvailable(w', k') && Rank(k'.pc) < Rank(k.pc)
    ensures RunAlone(help, w, k, s) == RunAlone(help, w', k', s)
  {
    w', k' := WorkerStep(help, w, k, s).0, WorkerStep(help, w, k, s).1;
    StepLowersRank(help, w, k, s);
    AloneNext(help, w, k, s, WorkerStep(help, w, k, s));
    WorkerStepLock(help, w, k, s);
    StepKeepsRoomAvailable(help, w, k, s);
  }

  /** A job that finds or makes the room open ends with an open room, on every path. */
  lemma {:induction false} AvailableEndsOpen(help: nat, w: World, k: Worker, s: Script)
    requires RoomOk(w) && LockOk(help, w, k) && RoomAvailable(w, k)
    ensures RunAlone(help, w, k, s).room.state.Open?
    decreases Rank(k.pc)
  {
    if k.pc.Finished? {
      assert RunAlone(help, w, k, s) == w;
    } else {
      var w', k' := AvailableStep(help, w, k, s);
      AvailableEndsOpen(help, w', k', s);
    }
  }

  /** Where the handler's way out leaves the room. */
  lemma HandlerLeaves(help: nat, w: World, k: Worker, s: Script)
    requires k.pc.Handler?
    ensures RunAlone(help, w, k, s).room == ReleaseForRequest(w, help).room
  {
    var (w1, k1) := WorkerStep(help, w, k, s);
    var (w2, k2) := WorkerStep(help, w1, k1, s);
    assert RunAlone(help, w2, k2, s) == w2;
    assert RunAlone(help, w1, k1, s) == w2;
  }

  /** The room after the lock was not had: as it was, unless marking the failure raises into the handler. */
  function RoomWithoutLock(help: nat, w: World, s: Script): Room {
    if s.noLockMarkRaises then ReleaseForRequest(w, help).room else w.room
  }

  lemma NoLockLeaves(help: nat, w: World, k: Worker, s: Script)
    requires k.pc.NoLock?
    ensures RunAlone(help, w, k, s).room == RoomWithoutLock(help, w, s)
  {
    var (w1, k1) := WorkerStep(help, w, k, s);
    if s.noLockMarkRaises { HandlerLeaves(help, w1, k1, s); } else { assert RunAlone(help, w1, k1, s) == w1; }
  }

  lemma ReclaimedLeaves(help: nat, w: World, k: Worker, s: Script)
    requires k.pc.Reclaimed? && !w.room.state.Open?
    ensures RunAlone(help, w, k, s).room == RoomWithoutLock(help, w, s)
  {
    var (w1, k1) := WorkerStep(help, w, k, s);
    NoLockLeaves(help, w1, k1, s);
  }

  lemma PreemptedLeaves(help: nat, w: World, k: Worker, s: Script)
    requires RoomOk(w) && LockOk(help, w, k) && k.pc.Preempted? && w.room.token.Some?
    ensures if w.room.expired && !s.reclaimRaises then RunAlone(help, w, k, s).room.state.Open?
            else RunAlone(help, w, k, s).room == RoomWithoutLock(help, w, s)
  {
    var (w1, k1) := WorkerStep(help, w, k, s);
    if s.reclaimRaises {
      NoLockLeaves(help, w1, k1, s);
    } else if w.room.expired {
      WorkerStepLock(help, w, k, s);
      AvailableEndsOpen(help, w1, k1, s);
    } else {
      ReclaimedLeaves(help, w1, k1, s);
    }
  }

  /** The worker gets to ask for the room. */
  predicate Asks(w: World, s: Script) {
    !s.loadRaises && WorthClaiming(w) && !s.claimRaises && Claimable(w) && !s.setupRaises
  }

  /** It takes the present lease away first. */
  predicate TakesOver(w: World, s: Script) {
    Asks(w, s) && !s.preemptRaises && (w.room.preemptible || (w.room.expired && !s.reclaimRaises))
  }

  /** It ends in the exception handler with the present lease still there. */
  predicate Raises(w: World, s: Script) {
    || s.loadRaises
    || (WorthClaiming(w) && (s.claimRaises || (Claimable(w) && s.setupRaises)))
    || (Asks(w, s) && s.noLockMarkRaises)
  }

  lemma ClaimedLeaves(help: nat, w: World, k: Worker, s: Script)
    requires RoomOk(w) && LockOk(help, w, k) && k.pc.Claimed? && w.room.token.Some? && !s.setupRaises
    ensures if !s.preemptRaises && (w.room.preemptible || (w.room.expired && !s.reclaimRaises))
            then RunAlone(help, w, k, s).room.state.Open?
            else RunAlone(help, w, k, s).room == RoomWithoutLock(help, w, s)
  {
    var (w1, k1) := WorkerStep(help, w, k, s);
    WorkerStepLock(help, w, k, s);
    if s.preemptRaises {
      NoLockLeaves(help, w1, k1, s);
    } else if w.room.preemptible {
      AvailableEndsOpen(help, w1, k1, s);
    } else {
      PreemptedLeaves(help, w1, k1, s);
    }
  }

  /** Where a whole job leaves a leased room. */
  lemma AloneLeaves(help: nat, w: World, s: Script)
    requires RoomOk(w) && w.room.token.Some?
    ensures if TakesOver(w, s) then RunAlone(help, w, FRESH_WORKER, s).room.state.Open?
            else RunAlone(help, w, FRESH_WORKER, s).room ==
                 if Raises(w, s) then ReleaseForRequest(w, help).room else w.room
  {
    var (w1, k1) := WorkerStep(help, w, FRESH_WORKER, s);
    if s.loadRaises {
      HandlerLeaves(help, w1, k1, s);
    } else if !WorthClaiming(w) {
      assert RunAlone(help, w1, k1, s) == w1;
    } else {
      var (w2, k2) := WorkerStep(help, w1, k1, s);
      assert RunAlone(help, w1, k1, s) == RunAlone(help, w2, k2, s);
      if s.claimRaises {
        HandlerLeaves(help, w2, k2, s);
      } else if !Claimable(w) {
        assert RunAlone(help, w2, k2, s) == w2;
      } else if s.setupRaises {
        var (w3, k3) := WorkerStep(help, w2, k2, s);
        HandlerLeaves(help, w3, k3, s);
      } else {
        ClaimedLeaves(help, w2, k2, s);
      }
    }
  }

  /**
   A job run alone leaves an open room open. It opens a leased one exactly when it
   takes the lease over, or ends in the handler with its own number on the lease;
   otherwise the lease stays as it was. A closed room stays closed.
   */
  lemma AloneEndsOpenExactly(help: nat, w: World, s: Script)
    requires RoomOk(w) && (w.room.state.Intervening? ==> w.room.token.Some?)
    ensures var room := RunAlone(help, w, FRESH_WORKER, s).room;
            && (room.state.Open? <==>
                  || w.room.state.Open?
                  || TakesOver(w, s)
                  || (Raises(w, s) && w.request.Some? && w.room.owner == Some(OwnerOf(help))
                      && w.room.state.Intervening?))
            && (!room.state.Open? ==> room == w.room)
  {
    if w.room.state.Open? {
      AvailableEndsOpen(help, w, FRESH_WORKER, s);
    } else if w.room.state.Intervening? {
      AloneLeaves(help, w, s);
    } else {
      ClosedStays(help, w, FRESH_WORKER, s);
    }
  }

  /** The room is closed and the worker has no lease. */
  predicate Shut(w: World, k: Worker) {
    w.room.state.Closed? && RoomOk(w) && PcMatchesToken(k) && k.token.None?
  }

  lemma AcquiringKeepsShut(help: nat, w: World, k: Worker, s: Script)
    requires Shut(w, k) && (k.pc.Claimed? || k.pc.Preempted? || k.pc.Reclaimed? || k.pc.NoLock?)
    ensures var (w', k') := Acquiring(help, w, k, s); Shut(w', k') && w'.room == w.room
  {
    assert Preempt(w) == w && ExpireLease(help, w) == w;
  }

  lemma StepKeepsShut(help: nat, w: World, k: Worker, s: Script)
    requires Shut(w, k)
    ensures var (w', k') := WorkerStep(help, w, k, s); Shut(w', k') && w'.room == w.room
  {
    hide Acquiring, WhileLeased;
    assert !Leasing(k.pc);
    if BeforeLease(k.pc) && !k.pc.Start? && !k.pc.Loaded? { AcquiringKeepsShut(help, w, k, s); }
  }

  lemma ShutStep(help: nat, w: World, k: Worker, s: Script) returns (w': World, k': Worker)
    requires Shut(w, k) && !k.pc.Finished?
    ensures Shut(w', k') && w'.room == w.room && Rank(k'.pc) < Rank(k.pc)
    ensures RunAlone(help, w, k, s) == RunAlone(help, w', k', s)
  {
    w', k' := WorkerStep(help, w, k, s).0, WorkerStep(help, w, k, s).1;
    StepKeepsShut(help, w, k, s);
    StepLowersRank(help, w, k, s);
    AloneNext(help, w, k, s, WorkerStep(help, w, k, s));
  }

  lemma {:induction false} ClosedStays(help: nat, w: World, k: Worker, s: Script)
    requires Shut(w, k)
    ensures RunAlone(help, w, k, s).room == w.room
    decreases Rank(k.pc)
  {
    if k.pc.Finished? {
      assert RunAlone(help, w, k, s) == w;
    } else {
      var w', k' := ShutStep(help, w, k, s);
      ClosedStays(help, w', k', s);
    }
  }

  /** A finished request stays finished exactly when loading it does not raise into the handler that marks it failed. */
  lemma RerunKeepsDoneExactly(help: nat, w: World, s: Script)
    requires w.request.Some? && Done(w.request.value.status)
    ensures Done(RunAlone(help, w, FRESH_WORKER, s).request.value.status) <==> !s.loadRaises || s.handlerMarkRaises
    ensures !s.loadRaises ==> RunAlone(help, w, FRESH_WORKER, s) == w
  {
    var (w1, k1) := WorkerStep(help, w, FRESH_WORKER, s);
    if s.loadRaises {
      var (w2, k2) := WorkerStep(help, w1, k1, s);
      var (w3, k3) := WorkerStep(help, w2, k2, s);
      assert RunAlone(help, w3, k3, s) == w3;
      assert RunAlone(help, w2, k2, s) == w3;
      assert RunAlone(help, w1, k1, s) == w3;
    } else {
      assert RunAlone(help, w1, k1, s) == w1;
    }
  }

  // ---------------------------------------------------------------- where it goes wrong

  /** Every call works and the message is published. */
  const SMOOTH := Script(false, false, false, false, false, false, false, true, Publishes(false, 1), false, false,
      false, false, false)

  const QUEUED := Request(Queued, None, None, false)

  function NewSystem(help: nat): System { System(help, World(Some(QUEUED), FREE_ROOM, 0), map[]) }

  lemma SystemRunNext(sys: System, init: seq<Event>, e: Event)
    ensures SystemRun(sys, init + [e]) == SystemStep(SystemRun(sys, init), e)
  {
    assert (init + [e])[..|init|] == init;
  }

  /**
   From a new system: a pipeline with the request's number leases the room, a worker
   whose load raises runs the handler, and the pipeline's lease, not outranked and
   not expired, is gone.
   */
  lemma HandlerFreesPipelineLease(help: nat)
    ensures var calls := [Spawn(0), Lease(OwnerOf(help), false), Work(0, SMOOTH.(loadRaises := true))];
            var before := SystemRun(NewSystem(help), calls);
            && LockInv(before)
            && before.world.room == Room(Intervening, Some(0), Some(OwnerOf(help)), true, false, false)
            && !WorkerToken(before, 0)
            && SystemStep(before, Work(0, SMOOTH)).world.room == FREE_ROOM
  {
    var raising := SMOOTH.(loadRaises := true);
    var sys := NewSystem(help);
    var first, second := [Spawn(0)], [Spawn(0), Lease(OwnerOf(help), false)];
    SystemRunNext(sys, [], Spawn(0));
    SystemRunNext(sys, first, Lease(OwnerOf(help), false));
    SystemRunNext(sys, second, Work(0, raising));
    assert [] + first == first && first + [Lease(OwnerOf(help), false)] == second;
    var leased := Room(Intervening, Some(0), Some(OwnerOf(help)), true, false, false);
    assert SystemRun(sys, first) == sys.(workers := map[0 := FRESH_WORKER]);
    assert SystemRun(sys, second) == System(help, World(Some(QUEUED), leased, 1), map[0 := FRESH_WORKER]);
    assert SystemRun(sys, second + [Work(0, raising)]) ==
        System(help, World(Some(QUEUED), leased, 1), map[0 := Worker(Handler, false, None)]);
    assert second + [Work(0, raising)] == [Spawn(0), Lease(OwnerOf(help), false), Work(0, raising)];
  }

  /** A room under a pipeline's lease that the request outranks, and the same room answered and opened. */
  function Outranked(owner: int): World {
    World(Some(QUEUED), Room(Intervening, Some(0), Some(owner), true, true, false), 1)
  }

  const ANSWERED := World(Some(Request(Completed, Some(1), Some(1), true)), FREE_ROOM, 2)

  lemma JobTakesRoom(help: nat, owner: int)
    ensures RunAlone(help, Outranked(owner), FRESH_WORKER, SMOOTH) ==
            RunAlone(help, World(Some(QUEUED.(status := Running)), FREE_ROOM, 1), Worker(Reclaimed, true, None), SMOOTH)
  {
    var w := Outranked(owner);
    var claimed := SetStatus(w, Running);
    var cleared := claimed.(room := FREE_ROOM);
    AloneNext(help, w, FRESH_WORKER, SMOOTH, (w, Worker(Loaded, false, None)));
    AloneNext(help, w, Worker(Loaded, false, None), SMOOTH, (claimed, Worker(Claimed, true, None)));
    AloneNext(help, claimed, Worker(Claimed, true, None), SMOOTH, (cleared, Worker(Preempted, true, None)));
    AloneNext(help, cleared, Worker(Preempted, true, None), SMOOTH, (cleared, Worker(Reclaimed, true, None)));
  }

  /** Preempting at work: a job meets a pipeline's lease the request outranks, takes the room and answers. */
  lemma JobOutranksPipeline(help: nat, owner: int)
    ensures RunAlone(help, Outranked(owner), FRESH_WORKER, SMOOTH) == ANSWERED
  {
    JobTakesRoom(help, owner);
    var cleared := World(Some(QUEUED.(status := Running)), FREE_ROOM, 1);
    var leased := Acquire(cleared, OwnerOf(help), false, false);
    AloneNext(help, cleared, Worker(Reclaimed, true, None), SMOOTH, (leased, Worker(Locked(1), true, Some(1))));
    AloneNext(help, leased, Worker(Locked(1), true, Some(1)), SMOOTH, (leased, Worker(Suggested(1), true, Some(1))));
    AloneNext(help, leased, Worker(Suggested(1), true, Some(1)), SMOOTH,
        (ANSWERED, Worker(Releasing(1, false), true, Some(1))));
    AloneNext(help, ANSWERED, Worker(Releasing(1, false), true, Some(1)), SMOOTH,
        (ANSWERED, Worker(Finished, true, Some(1))));
  }

  /**
   A pipeline leases an open room, its claim to the room may change, and it gives the
   room back, or its time runs out and the room is reclaimed, the request staying as it is.
   */
  lemma PipelineComesAndGoes(sys: System, owner: int, before: bool, standing: bool)
    requires LockInv(sys) && sys.world.room.state.Open?
    ensures var leased := SystemStep(sys, Lease(owner, before));
            var held := SystemStep(leased, Standing(standing));
            && leased.world.room == Room(Intervening, Some(sys.world.nextToken), Some(owner), true, before, false)
            && held.world.room == leased.world.room.(preemptible := standing)
            && SystemStep(held, Unlease).world == held.world.(room := FREE_ROOM)
            && SystemStep(held, Age).world == held.world.(room := held.world.room.(expired := true))
            && SystemStep(SystemStep(held, Age), Expire).world == held.world.(room := FREE_ROOM)
            && held.world.request == sys.world.request
  {
    var held := SystemStep(SystemStep(sys, Lease(owner, before)), Standing(standing));
    assert held.workers == sys.workers;
    assert forall id :: id in sys.workers ==> LockOk(sys.help, sys.world, sys.workers[id]);
    assert !WorkerToken(held, sys.world.nextToken);
  }

  /** The request so answered is marked failed by a second job whose load raises. */
  lemma RerunOverwrites(help: nat)
    ensures RunAlone(help, ANSWERED, FRESH_WORKER, SMOOTH.(loadRaises := true)) == SetStatus(ANSWERED, Failed)
  {
    var raising := SMOOTH.(loadRaises := true);
    AloneNext(help, ANSWERED, FRESH_WORKER, raising, (ANSWERED, Worker(Handler, false, None)));
    AloneNext(help, ANSWERED, Worker(Handler, false, None), raising, (ANSWERED, Worker(HandlerMark, false, None)));
    AloneNext(help, ANSWERED, Worker(HandlerMark, false, None), raising,
        (SetStatus(ANSWERED, Failed), Worker(Finished, false, None)));
  }

  class HelpDesk {
    var request: Option<Request>
    var room: Room
    var nextToken: nat

    function State(): World reads this { World(request, room, nextToken) }

    method Mark(status: Status)
      modifies this`request
      ensures State() == SetStatus(old(State()), status)
    {
      if request.Some? { request := Some(request.value.(status := status)); }
    }

    method Free(token: nat)
      modifies this`room
      ensures State() == Release(old(State()), token)
    {
      if room.state.Intervening? && room.token == Some(token) { room := FREE_ROOM; }
    }

    /** Claim by conditional update; true when a row was affected. */
    method Claim() returns (won: bool)
      modifies this`request
      ensures won == Claimable(old(State()))
      ensures State() == if won then SetStatus(old(State()), Running) else old(State())
    {
      won := request.Some? && request.value.runId.None? && request.value.messageId.None?
             && (request.value.status.Queued? || request.value.status.Pending?);
      if won { request := Some(request.value.(status := Running)); }
    }

    method PreemptPipelines()
      modifies this`room
      ensures State() == Preempt(old(State()))
    {
      if request.Some? && room.preemptible { room := FREE_ROOM; }
    }

    method RecoverExpired(help: nat)
      modifies this`room, this`request
      ensures State() == ExpireLease(help, old(State()))
    {
      if !room.state.Intervening? || room.token.None? || !room.expired { return; }
      var owner := room.owner;
      var pipeline := room.pipeline;
      room := FREE_ROOM;
      if owner == Some(OwnerOf(help)) && !pipeline && request.Some? && !Terminal(request.value.status) { Mark(Failed); }
    }

    /** The conditional update that takes an open room. */
    method TakeOpenRoom(owner: int) returns (token: Option<nat>)
      modifies this`room, this`nextToken
      ensures token == if old(room).state.Open? then Some(old(nextToken)) else None
      ensures State() == Acquire(old(State()), owner, false, false)
    {
      if !room.state.Open? { return None; }
      token := Some(nextToken);
      room := Room(Intervening, token, Some(owner), false, false, false);
      nextToken := nextToken + 1;
    }

    /** _acquire_help_room_lock; `k` is where the step model stands afterwards. */
    method AcquireHelpRoomLock(help: nat, s: Script, ghost before: Worker) returns (token: Option<nat>, ghost k: Worker)
      requires before.pc.Claimed? && !s.setupRaises
      modifies this
      ensures k == if token.Some? then before.(pc := Locked(token.value), token := token) else before.(pc := NoLock)
      ensures RunAlone(help, old(State()), before, s) == RunAlone(help, State(), k, s)
    {
      k := before;
      ghost var goal := RunAlone(help, State(), k, s);
      if s.preemptRaises { return None, k.(pc := NoLock); }
      PreemptPipelines();
      k := k.(pc := Preempted);
      assert goal == RunAlone(help, State(), k, s);
      if s.reclaimRaises { return None, k.(pc := NoLock); }
      RecoverExpired(help);
      k := k.(pc := Reclaimed);
      assert goal == RunAlone(help, State(), k, s);
      if s.lockRaises { return None, k.(pc := NoLock); }
      token := TakeOpenRoom(OwnerOf(help));
      k := if token.Some? then k.(pc := Locked(token.value), token := token) else k.(pc := NoLock);
    }

    /** The publisher's transaction; false when it refuses. */
    method PublishIntervention(token: nat, fallback: bool, messageId: nat) returns (ok: bool)
      modifies this`request, this`room
      ensures ok == MayPublish(old(State()), token)
      ensures State() == if ok then Publish(old(State()), token, fallback, messageId) else old(State())
    {
      if request.None? || !room.state.Intervening? || room.token != Some(token) || room.expired { return false; }
      if request.value.runId.Some? || request.value.messageId.Some? { return true; }
      var status := if fallback then CompletedWithFallback else Completed;
      request := Some(Request(status, Some(messageId), Some(messageId), true));
      room := FREE_ROOM;
      ok := true;
    }

    /** The idempotency tests and the claim; None when the job is over, else whether an exception came first. */
    method LoadAndClaim(help: nat, s: Script) returns (raised: Option<bool>, ghost k: Worker)
      modifies this
      ensures raised.None? ==> k.pc.Finished?
      ensures raised.Some? ==> if raised.value then k.pc.Handler? else k.pc.Claimed?
      ensures RunAlone(help, old(State()), FRESH_WORKER, s) == RunAlone(help, State(), k, s)
    {
      k := FRESH_WORKER;
      ghost var goal := RunAlone(help, State(), k, s);
      if s.loadRaises { return Some(true), k.(pc := Handler); }
      if !WorthClaiming(State()) { return None, k.(pc := Finished); }
      k := k.(pc := Loaded);
      assert goal == RunAlone(help, State(), k, s);
      if s.claimRaises { return Some(true), k.(pc := Handler); }
      var won := Claim();
      if !won { return None, k.(pc := Finished); }
      k := k.(pc := Claimed, claimed := true);
      raised := Some(false);
    }

    /** From the lease on: the suggestion, then the write phase. */
    method AnswerUnderLease(help: nat, token: nat, s: Script, ghost before: Worker)
        returns (raised: bool, ghost k: Worker)
      requires before.pc == Locked(token)
      modifies this
      ensures k.pc == if raised then Handler else Finished
      ensures RunAlone(help, old(State()), before, s) == RunAlone(help, State(), k, s)
    {
      k := before;
      ghost var goal := RunAlone(help, State(), k, s);
      if s.prepareRaises { return true, k.(pc := Handler); }
      if s.suggestion {
        k := k.(pc := Suggested(token));
        assert goal == RunAlone(help, State(), k, s);
        raised, k := WritePhase(help, token, s, k);
        return raised, k;
      }
      k := k.(pc := Failing(token, NoSuggestion));
      assert goal == RunAlone(help, State(), k, s);
      if s.noSuggestionMarkRaises { return true, k.(pc := Handler); }
      Mark(Failed);
      k := k.(pc := Releasing(token, false));
      assert goal == RunAlone(help, State(), k, s);
      Free(token);
      return false, k.(pc := Finished);
    }

    /** _execute_help_flow; `raised` tells whether an exception leaves it. `k` is where the step model stands. */
    method ExecuteHelpFlow(help: nat, s: Script) returns (raised: bool, ghost k: Worker)
      modifies this
      ensures k.pc == if raised then Handler else Finished
      ensures RunAlone(help, old(State()), FRESH_WORKER, s) == RunAlone(help, State(), k, s)
    {
      var opening;
      opening, k := LoadAndClaim(help, s);
      if opening.None? { return false, k; }
      if opening.value { return true, k; }
      ghost var goal := RunAlone(help, State(), k, s);
      if s.setupRaises { return true, k.(pc := Handler); }
      var lease;
      lease, k := AcquireHelpRoomLock(help, s, k);
      assert goal == RunAlone(help, State(), k, s);
      if lease.Some? {
        raised, k := AnswerUnderLease(help, lease.value, s, k);
        return raised, k;
      }
      if s.noLockMarkRaises { return true, k.(pc := Handler); }
      Mark(Failed);
      return false, k.(pc := Finished);
    }

    /** The finally branch. */
    method FreeAt(help: nat, token: nat, s: Script, ghost before: Worker) returns (ghost k: Worker)
      requires before.pc.Releasing? && before.pc.token == token
      modifies this
      ensures k == before.(pc := if before.pc.reraise then Handler else Finished)
      ensures RunAlone(help, old(State()), before, s) == RunAlone(help, State(), k, s)
    {
      hide RunAlone;
      Free(token);
      k := before.(pc := if before.pc.reraise then Handler else Finished);
      AloneNext(help, old(State()), before, s, (State(), k));
    }

    /** The try block around publication and its except branch. */
    method WritePhase(help: nat, token: nat, s: Script, ghost before: Worker) returns (raised: bool, ghost k: Worker)
      requires before.pc == Suggested(token)
      modifies this
      ensures k.pc == if raised then Handler else Finished
      ensures RunAlone(help, old(State()), before, s) == RunAlone(help, State(), k, s)
    {
      hide RunAlone;
      k := before;
      ghost var was := (State(), k);
      var excepted := s.publish.Raises?;
      if !excepted {
        var ok := false;
        if s.publish.Publishes? { ok := PublishIntervention(token, s.publish.fallback, s.publish.messageId); }
        if ok {
          k := k.(pc := Releasing(token, false));
          AloneNext(help, was.0, was.1, s, (State(), k));
          k := FreeAt(help, token, s, k);
          return false, k;
        }
        k := k.(pc := Failing(token, Refused));
        AloneNext(help, was.0, was.1, s, (State(), k));
        was := (State(), k);
        if !s.refusedMarkRaises {
          Mark(Failed);
          k := k.(pc := Releasing(token, false));
          AloneNext(help, was.0, was.1, s, (State(), k));
          k := FreeAt(help, token, s, k);
          return false, k;
        }
      }
      k := k.(pc := Failing(token, Excepted));
      AloneNext(help, was.0, was.1, s, (State(), k));
      was := (State(), k);
      if s.exceptMarkRaises {
        k := k.(pc := Handler);
        AloneNext(help, was.0, was.1, s, (State(), k));
        return true, k;
      }
      Mark(Failed);
      k := k.(pc := Releasing(token, true));
      AloneNext(help, was.0, was.1, s, (State(), k));
      k := FreeAt(help, token, s, k);
      raised := true;
    }

    /** process_student_help. */
    method ProcessStudentHelp(help: nat, s: Script)
      modifies this
      ensures State() == RunAlone(help, old(State()), FRESH_WORKER, s)
    {
      var raised, k := ExecuteHelpFlow(help, s);
      if raised {
        ghost var goal := RunAlone(help, State(), k, s);
        if request.Some? && room.state.Intervening? && room.owner == Some(OwnerOf(help)) && room.token.Some? {
          Free(room.token.value);
        }
        ghost var k' := k.(pc := HandlerMark);
        assert goal == RunAlone(help, State(), k', s);
        if !s.handlerMarkRaises { Mark(Failed); }
        assert goal == RunAlone(help, State(), k'.(pc := Finished), s);
      }
    }
  }
}
