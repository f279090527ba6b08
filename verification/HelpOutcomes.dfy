/**
 How a help job ends (agent/help_tasks.py): what each statement does to the request's
 status, when a job that claimed its request leaves it unfinished, and the status
 every way through the job leaves.
 */
module HelpOutcomes {
  import opened HelpTask
  import opened Tables

  // ---------------------------------------------------------------- one statement

  /** The statement is the UPDATE that marks the request failed, and it goes through. */
  predicate MarksFailed(k: Worker, s: Script) {
    || (k.pc.NoLock? && !s.noLockMarkRaises)
    || (k.pc.Failing? && k.pc.site == NoSuggestion && !s.noSuggestionMarkRaises)
    || (k.pc.Failing? && k.pc.site == Refused && !s.refusedMarkRaises)
    || (k.pc.Failing? && k.pc.site == Excepted && !s.exceptMarkRaises)
    || (k.pc.HandlerMark? && !s.handlerMarkRaises)
  }

  /** The statement publishes the answer: the worker's token holds the room, in time, and nothing was published. */
  predicate PublishesNow(w: World, k: Worker, s: Script) {
    && k.pc.Suggested? && s.publish.Publishes? && w.request.Some?
    && w.room.state == Intervening && w.room.token == Some(k.pc.token) && !w.room.expired
    && w.request.value.runId == None && w.request.value.messageId == None
  }

  /** The statement wins the claim. */
  predicate ClaimsNow(w: World, k: Worker, s: Script) {
    && k.pc.Loaded? && !s.claimRaises && w.request.Some?
    && w.request.value.runId == None && w.request.value.messageId == None
    && (w.request.value.status == Queued || w.request.value.status == Pending)
  }

  /** The statement reclaims an expired lease that the request itself held, which fails the request. */
  predicate ReclaimsOwn(help: nat, w: World, k: Worker, s: Script) {
    && k.pc.Preempted? && !s.reclaimRaises && w.request.Some?
    && w.room.state == Intervening && w.room.token != None && w.room.expired
    && w.room.owner == Some(0 - help) && !w.room.pipeline
    && w.request.value.status != Completed && w.request.value.status != CompletedWithFallback
  }

  /** What the statement leaves of the request. */
  function RequestAfter(help: nat, w: World, k: Worker, s: Script): Request
    requires w.request.Some?
  {
    var before := w.request.value;
    if MarksFailed(k, s) || ReclaimsOwn(help, w, k, s) then before.(status := Failed)
    else if ClaimsNow(w, k, s) then before.(status := Running)
    else if PublishesNow(w, k, s) then
      Request(if s.publish.fallback then CompletedWithFallback else Completed,
          Some(s.publish.messageId), Some(s.publish.messageId), true)
    else before
  }

  lemma ClaimingStatus(help: nat, w: World, k: Worker, s: Script)
    requires w.request.Some? && (k.pc.Start? || k.pc.Loaded?)
    ensures Claiming(w, k, s).0.request == Some(RequestAfter(help, w, k, s))
  {}

  lemma AcquiringStatus(help: nat, w: World, k: Worker, s: Script)
    requires w.request.Some? && (k.pc.Claimed? || k.pc.Preempted? || k.pc.Reclaimed? || k.pc.NoLock?)
    ensures Acquiring(help, w, k, s).0.request == Some(RequestAfter(help, w, k, s))
  {}

  lemma WhileLeasedStatus(help: nat, w: World, k: Worker, s: Script)
    requires w.request.Some? && Leasing(k.pc)
    ensures WhileLeased(w, k, s).0.request == Some(RequestAfter(help, w, k, s))
  {}

  lemma HandlingStatus(help: nat, w: World, k: Worker, s: Script)
    requires w.request.Some? && (k.pc.Handler? || k.pc.HandlerMark?)
    ensures Handling(help, w, k, s).0.request == Some(RequestAfter(help, w, k, s))
  {}

  /** What one statement does to the request, in every state. */
  lemma StatementStatusExactly(help: nat, w: World, k: Worker, s: Script)
    requires w.request.Some?
    ensures WorkerStep(help, w, k, s).0.request == Some(RequestAfter(help, w, k, s))
  {
    if k.pc.Finished? {
      assert !MarksFailed(k, s) && !ReclaimsOwn(help, w, k, s);
    } else if k.pc.Start? || k.pc.Loaded? {
      hide Claiming, RequestAfter;
      ClaimingStatus(help, w, k, s);
    } else if BeforeLease(k.pc) {
      hide Acquiring, RequestAfter;
      AcquiringStatus(help, w, k, s);
    } else if Leasing(k.pc) {
      hide WhileLeased, RequestAfter;
      WhileLeasedStatus(help, w, k, s);
    } else {
      hide Handling, RequestAfter;
      HandlingStatus(help, w, k, s);
    }
  }

  /** Recovering an expired lease opens the room, and fails the request exactly when it was its own and not done. */
  lemma RecoveryExactly(help: nat, w: World)
    ensures var after := ExpireLease(help, w);
            var due := w.room.state == Intervening && w.room.token != None && w.room.expired;
            && after.room == (if due then FREE_ROOM else w.room) && after.nextToken == w.nextToken
            && (after.request != w.request <==>
                  && due && w.room.owner == Some(0 - help) && !w.room.pipeline && w.request.Some?
                  && !Terminal(w.request.value.status))
            && (after.request != w.request ==> after.request == Some(w.request.value.(status := Failed)))
  {}

  // ---------------------------------------------------------------- every run

  predicate HasEnded(w: World) { w.request.Some? && Terminal(w.request.value.status) }

  /** What was published has ended, and so has what a worker is about to release. */
  predicate EndOk(w: World, k: Worker) {
    && (k.pc.Start? || k.pc.Loaded? ==> !k.claimed)
    && (!k.pc.Start? && !k.pc.Handler? && !k.pc.HandlerMark? && !k.pc.Finished? ==> w.request.Some?)
    && (k.claimed ==> w.request.Some?)
    && (k.pc.Releasing? ==> HasEnded(w))
  }

  predicate PublishedEnded(w: World) { AlreadyPublished(w) ==> HasEnded(w) }

  ghost predicate EndInv(sys: System) {
    PublishedEnded(sys.world) && forall id :: id in sys.workers ==> EndOk(sys.world, sys.workers[id])
  }

  /** The final mark of the exception handler raises, on a request that has not ended. */
  predicate FinalMarkRaises(w: World, k: Worker, s: Script) {
    k.pc.HandlerMark? && s.handlerMarkRaises && !HasEnded(w)
  }

  /** A request once there stays there, and once ended stays ended. */
  predicate Endures(before: World, after: World) {
    (before.request.Some? ==> after.request.Some?) && (HasEnded(before) ==> HasEnded(after)) && PublishedEnded(after)
  }

  /** What a statement owes: the request endures, and a job that claimed ends it unless the final mark raises. */
  predicate StatementOk(w: World, k: Worker, s: Script, after: (World, Worker)) {
    && Endures(w, after.0) && EndOk(after.0, after.1)
    && (after.1.claimed && after.1.pc.Finished? && !k.pc.Finished? ==>
          (HasEnded(after.0) <==> !FinalMarkRaises(w, k, s)))
  }

  lemma ClaimingEnds(w: World, k: Worker, s: Script)
    requires PublishedEnded(w) && EndOk(w, k) && (k.pc.Start? || k.pc.Loaded?)
    ensures StatementOk(w, k, s, Claiming(w, k, s))
  {}

  lemma AcquiringEnds(help: nat, w: World, k: Worker, s: Script)
    requires PublishedEnded(w) && EndOk(w, k) && (k.pc.Claimed? || k.pc.Preempted? || k.pc.Reclaimed? || k.pc.NoLock?)
    ensures StatementOk(w, k, s, Acquiring(help, w, k, s))
  {}

  lemma WhileLeasedEnds(w: World, k: Worker, s: Script)
    requires PublishedEnded(w) && EndOk(w, k) && Leasing(k.pc)
    ensures StatementOk(w, k, s, WhileLeased(w, k, s))
  {}

  lemma HandlingEnds(help: nat, w: World, k: Worker, s: Script)
    requires PublishedEnded(w) && EndOk(w, k) && (k.pc.Handler? || k.pc.HandlerMark?)
    ensures StatementOk(w, k, s, Handling(help, w, k, s))
  {}

  /** A statement that finishes a job which claimed ends the request, or is the final mark raising. */
  lemma StatementEnds(help: nat, w: World, k: Worker, s: Script)
    requires PublishedEnded(w) && EndOk(w, k)
    ensures StatementOk(w, k, s, WorkerStep(help, w, k, s))
  {
    hide StatementOk, Claiming, Acquiring, WhileLeased, Handling;
    if k.pc.Finished? {
      FinishedEnds(w, k, s);
    } else if k.pc.Start? || k.pc.Loaded? {
      ClaimingEnds(w, k, s);
    } else if BeforeLease(k.pc) {
      AcquiringEnds(help, w, k, s);
    } else if Leasing(k.pc) {
      WhileLeasedEnds(w, k, s);
    } else {
      HandlingEnds(help, w, k, s);
    }
  }

  lemma FinishedEnds(w: World, k: Worker, s: Script)
    requires PublishedEnded(w) && EndOk(w, k) && k.pc.Finished?
    ensures StatementOk(w, k, s, (w, k))
  {}

  lemma OthersEndure(w: World, after: World, k: Worker)
    requires EndOk(w, k) && Endures(w, after)
    ensures EndOk(after, k)
  {}

  lemma OutsideEndures(sys: System, e: Event)
    requires PublishedEnded(sys.world)
    ensures Endures(sys.world, Outside(sys, e))
  {}

  lemma StepKeepsEndInv(sys: System, e: Event)
    requires EndInv(sys)
    ensures EndInv(SystemStep(sys, e)) && Endures(sys.world, SystemStep(sys, e).world)
  {
    var after := SystemStep(sys, e);
    if e.Work? && e.id in sys.workers { StatementEnds(sys.help, sys.world, sys.workers[e.id], e.script); }
    OutsideEndures(sys, e);
    assert Endures(sys.world, after.world);
    forall id | id in after.workers ensures EndOk(after.world, after.workers[id]) {
      if id in sys.workers && after.workers[id] == sys.workers[id] {
        OthersEndure(sys.world, after.world, sys.workers[id]);
      }
    }
  }

  lemma {:induction false} RunKeepsEndInv(sys: System, events: seq<Event>)
    requires EndInv(sys)
    ensures EndInv(SystemRun(sys, events))
  {
    if events != [] {
      RunKeepsEndInv(sys, events[..|events| - 1]);
      StepKeepsEndInv(SystemRun(sys, events[..|events| - 1]), events[|events| - 1]);
    }
  }

  /** Event i of the run is the final mark of this worker, and it raises. */
  predicate MarkLost(sys: System, events: seq<Event>, id: int, i: nat) {
    && i < |events| && events[i].Work? && events[i].id == id
    && var t := SystemRun(sys, events[..i]);
       id in t.workers && FinalMarkRaises(t.world, t.workers[id], events[i].script)
  }

  predicate MarkLostIn(sys: System, events: seq<Event>, id: int) {
    exists i :: 0 <= i < |events| && MarkLost(sys, events, id, i)
  }

  lemma MarkLostNext(sys: System, init: seq<Event>, e: Event, id: int)
    ensures MarkLostIn(sys, init + [e], id) <==> MarkLostIn(sys, init, id) || MarkLost(sys, init + [e], id, |init|)
  {
    var events := init + [e];
    forall i | 0 <= i < |init| ensures MarkLost(sys, events, id, i) <==> MarkLost(sys, init, id, i) {
      assert events[..i] == init[..i];
    }
    if i :| 0 <= i < |init| && MarkLost(sys, init, id, i) { assert MarkLost(sys, events, id, i); }
  }

  /**
   In every run from a system without workers, whatever calls raise: a job that claimed
   the request and is finished has brought it to a terminal status, unless the
   handler's final mark raised on it.
   */
  lemma {:induction false} ClaimedJobEnds(sys: System, events: seq<Event>, id: int)
    requires EndInv(sys) && sys.workers == map[]
    requires id in SystemRun(sys, events).workers
    requires SystemRun(sys, events).workers[id].claimed && SystemRun(sys, events).workers[id].pc.Finished?
    ensures HasEnded(SystemRun(sys, events).world) || MarkLostIn(sys, events, id)
  {
    if events != [] {
      var init, e := events[..|events| - 1], events[|events| - 1];
      assert events == init + [e];
      var t := SystemRun(sys, init);
      RunKeepsEndInv(sys, init);
      StepKeepsEndInv(t, e);
      MarkLostNext(sys, init, e, id);
      if id in t.workers && t.workers[id].claimed && t.workers[id].pc.Finished? {
        ClaimedJobEnds(sys, init, id);
      } else {
        assert e.Work? && e.id == id && id in t.workers;
        StatementEnds(sys.help, t.world, t.workers[id], e.script);
        assert events[..|init|] == init;
      }
    }
  }

  // ---------------------------------------------------------------- calm runs, exactly

  /** A worker whose final mark was lost is finished from then on. */
  lemma {:induction false} LostIsFinished(sys: System, events: seq<Event>, id: int)
    requires MarkLostIn(sys, events, id)
    ensures var after := SystemRun(sys, events); id in after.workers && after.workers[id].pc.Finished?
  {
    if events != [] {
      var init, e := events[..|events| - 1], events[|events| - 1];
      assert events == init + [e];
      MarkLostNext(sys, init, e, id);
      if MarkLostIn(sys, init, id) { LostIsFinished(sys, init, id); } else { assert events[..|init|] == init; }
    }
  }

  lemma NobodyLeases(sys: System, id: int)
    requires ClaimInv(sys) && HelpLeaseOwned(sys)
    requires id in sys.workers && sys.workers[id].claimed && sys.workers[id].pc.Finished?
    ensures !HelpLease(sys.help, sys.world.room)
  {
    forall j | j in sys.workers ensures sys.workers[j].token.Some? ==> sys.workers[j].token != sys.world.room.token {
      assert ClaimOk(sys.help, sys.world, sys.workers[j]);
      assert LockOk(sys.help, sys.world, sys.workers[j]);
    }
  }

  /** Only one worker claims, and a help lease would be its own: once it is finished nobody ends the request. */
  lemma UnfinishedStays(sys: System, e: Event, id: int)
    requires ClaimInv(sys) && HelpLeaseOwned(sys) && CalmUntilClaim(e)
    requires id in sys.workers && sys.workers[id].claimed && sys.workers[id].pc.Finished? && !HasEnded(sys.world)
    ensures !HasEnded(SystemStep(sys, e).world)
  {
    NobodyLeases(sys, id);
    assert ClaimOk(sys.help, sys.world, sys.workers[id]);
    if e.Work? && e.id in sys.workers && e.id != id {
      assert ClaimOk(sys.help, sys.world, sys.workers[e.id]);
      UnclaimedStep(sys.help, sys.world, sys.workers[e.id], e.script);
    }
  }

  lemma StartsOk(sys: System)
    requires RoomOk(sys.world) && RequestOk(sys.help, sys.world) && sys.workers == map[]
    requires !HelpLease(sys.help, sys.world.room)
    ensures ClaimInv(sys) && EndInv(sys)
  {}

  /**
   When nothing raises before the claim, exactly: the request of a finished job that
   claimed it is terminal if and only if the handler's final mark did not raise on it;
   otherwise it says Running for good.
   */
  lemma {:induction false} ClaimedJobEndsExactly(sys: System, events: seq<Event>, id: int)
    requires RoomOk(sys.world) && RequestOk(sys.help, sys.world) && sys.workers == map[]
    requires !HelpLease(sys.help, sys.world.room)
    requires forall i :: 0 <= i < |events| ==> CalmUntilClaim(events[i])
    requires id in SystemRun(sys, events).workers
    requires SystemRun(sys, events).workers[id].claimed && SystemRun(sys, events).workers[id].pc.Finished?
    ensures HasEnded(SystemRun(sys, events).world) <==> !MarkLostIn(sys, events, id)
  {
    if events != [] {
      var init, e := events[..|events| - 1], events[|events| - 1];
      assert events == init + [e];
      var t := SystemRun(sys, init);
      StartsOk(sys);
      RunKeepsClaimInv(sys, init);
      RunKeepsEndInv(sys, init);
      HelpLeaseIsHeld(sys, init);
      RunKeepsLockInv(sys, init);
      StepKeepsEndInv(t, e);
      MarkLostNext(sys, init, e, id);
      assert events[..|init|] == init;
      if id in t.workers && t.workers[id].claimed && t.workers[id].pc.Finished? {
        ClaimedJobEndsExactly(sys, init, id);
        if !HasEnded(t.world) { UnfinishedStays(t, e, id); }
      } else {
        if MarkLostIn(sys, init, id) { LostIsFinished(sys, init, id); }
        assert e.Work? && e.id == id && id in t.workers;
        StatementEnds(sys.help, t.world, t.workers[id], e.script);
      }
    }
  }

  // ---------------------------------------------------------------- a job alone, exit by exit

  /** The room can be had: open, under a pipeline the request outranks, or its lease expired, and no call raises. */
  predicate HasRoom(room: Room, s: Script) {
    !s.preemptRaises && !s.reclaimRaises && !s.lockRaises && (room.state == Open || room.preemptible || room.expired)
  }

  /** The exception handler's final mark, over what it finds. */
  function Handled(s: Script, found: Status): Status { if s.handlerMarkRaises then found else Failed }

  /** How a job ends that got the room. */
  function StatusWithRoom(s: Script): Status {
    if s.prepareRaises then Handled(s, Running)
    else if !s.suggestion then (if s.noSuggestionMarkRaises then Handled(s, Running) else Failed)
    else if s.publish.Publishes? then (if s.publish.fallback then CompletedWithFallback else Completed)
    else if s.publish.Refuses? && !s.refusedMarkRaises then Failed
    else if s.exceptMarkRaises then Handled(s, Running)
    else Failed
  }

  /** How a job ends on a request that waits. */
  function EndStatus(waiting: Status, room: Room, s: Script): Status {
    if s.loadRaises || s.claimRaises then Handled(s, waiting)
    else if s.setupRaises then Handled(s, Running)
    else if !HasRoom(room, s) then (if s.noLockMarkRaises then Handled(s, Running) else Failed)
    else StatusWithRoom(s)
  }

  /** What a job that ends done has stored. */
  predicate EndsAs(after: World, status: Status, s: Script) {
    && after.request.Some? && after.request.value.status == status
    && (Done(status) ==>
          && s.publish.Publishes? && after.request.value.runId == Some(s.publish.messageId)
          && after.request.value.messageId == Some(s.publish.messageId) && after.request.value.hasResponse)
  }

  lemma FinishedAs(help: nat, w: World, k: Worker, s: Script)
    requires k.pc.Finished?
    ensures RunAlone(help, w, k, s) == w
  {}

  lemma HandlerEndsAs(help: nat, w: World, k: Worker, s: Script)
    requires k.pc.Handler? && w.request.Some? && !Done(w.request.value.status)
    ensures EndsAs(RunAlone(help, w, k, s), Handled(s, w.request.value.status), s)
  {
    var freed, marking := ReleaseForRequest(w, help), k.(pc := HandlerMark);
    var marked := if s.handlerMarkRaises then freed else SetStatus(freed, Failed);
    AloneNext(help, w, k, s, (freed, marking));
    AloneNext(help, freed, marking, s, (marked, k.(pc := Finished)));
    FinishedAs(help, marked, k.(pc := Finished), s);
  }

  lemma ReleasingEndsAs(help: nat, w: World, k: Worker, s: Script)
    requires k.pc.Releasing? && w.request.Some?
    requires Done(w.request.value.status) ==> EndsAs(w, w.request.value.status, s) && !k.pc.reraise
    requires k.pc.reraise ==> w.request.value.status.Failed?
    ensures EndsAs(RunAlone(help, w, k, s), w.request.value.status, s)
  {
    var freed, next := Release(w, k.pc.token), k.(pc := if k.pc.reraise then Handler else Finished);
    AloneNext(help, w, k, s, (freed, next));
    if k.pc.reraise { HandlerEndsAs(help, freed, next, s); } else { FinishedAs(help, freed, next, s); }
  }

  /** From a mark under the lease on. */
  lemma FailingEndsAs(help: nat, w: World, k: Worker, s: Script)
    requires k.pc.Failing? && w.request.Some? && w.request.value.status.Running?
    ensures EndsAs(RunAlone(help, w, k, s),
                match k.pc.site
                case NoSuggestion => if s.noSuggestionMarkRaises then Handled(s, Running) else Failed
                case Refused => if !s.refusedMarkRaises || !s.exceptMarkRaises then Failed else Handled(s, Running)
                case Excepted => if s.exceptMarkRaises then Handled(s, Running) else Failed, s)
    decreases if k.pc.site.Refused? then 1 else 0
  {
    hide RunAlone;
    var t, site := k.pc.token, k.pc.site;
    if !MarkRaises(s, site) {
      var marked, next := SetStatus(w, Failed), k.(pc := Releasing(t, site.Excepted?));
      AloneNext(help, w, k, s, (marked, next));
      ReleasingEndsAs(help, marked, next, s);
    } else if site.Refused? {
      AloneNext(help, w, k, s, (w, k.(pc := Failing(t, Excepted))));
      FailingEndsAs(help, w, k.(pc := Failing(t, Excepted)), s);
    } else {
      AloneNext(help, w, k, s, (w, k.(pc := Handler)));
      HandlerEndsAs(help, w, k.(pc := Handler), s);
    }
  }

  /** Under a fresh lease. */
  predicate Answering(w: World, k: Worker) {
    && w.request.Some? && w.request.value.status.Running? && w.request.value.runId.None?
    && w.request.value.messageId.None?
    && (k.pc.Locked? || k.pc.Suggested? ==> HeldUnder(w.room, k.pc.token) && !w.room.expired)
  }

  lemma SuggestedEndsAs(help: nat, w: World, k: Worker, s: Script)
    requires Answering(w, k) && k.pc.Suggested? && !s.prepareRaises && s.suggestion
    ensures EndsAs(RunAlone(help, w, k, s), StatusWithRoom(s), s)
  {
    hide RunAlone;
    var t := k.pc.token;
    match s.publish
    case Raises =>
      AloneNext(help, w, k, s, (w, k.(pc := Failing(t, Excepted))));
      FailingEndsAs(help, w, k.(pc := Failing(t, Excepted)), s);
    case Refuses =>
      AloneNext(help, w, k, s, (w, k.(pc := Failing(t, Refused))));
      FailingEndsAs(help, w, k.(pc := Failing(t, Refused)), s);
    case Publishes(fallback, id) =>
      var published := Publish(w, t, fallback, id);
      AloneNext(help, w, k, s, (published, k.(pc := Releasing(t, false))));
      ReleasingEndsAs(help, published, k.(pc := Releasing(t, false)), s);
  }

  lemma LockedEndsAs(help: nat, w: World, k: Worker, s: Script)
    requires Answering(w, k) && k.pc.Locked?
    ensures EndsAs(RunAlone(help, w, k, s), StatusWithRoom(s), s)
  {
    hide RunAlone;
    var t := k.pc.token;
    if s.prepareRaises {
      AloneNext(help, w, k, s, (w, k.(pc := Handler)));
      HandlerEndsAs(help, w, k.(pc := Handler), s);
    } else if s.suggestion {
      AloneNext(help, w, k, s, (w, k.(pc := Suggested(t))));
      SuggestedEndsAs(help, w, k.(pc := Suggested(t)), s);
    } else {
      AloneNext(help, w, k, s, (w, k.(pc := Failing(t, NoSuggestion))));
      FailingEndsAs(help, w, k.(pc := Failing(t, NoSuggestion)), s);
    }
  }

  lemma NoLockEndsAs(help: nat, w: World, k: Worker, s: Script)
    requires k.pc.NoLock? && w.request.Some? && w.request.value.status.Running?
    ensures EndsAs(RunAlone(help, w, k, s), if s.noLockMarkRaises then Handled(s, Running) else Failed, s)
  {
    hide RunAlone;
    if s.noLockMarkRaises {
      AloneNext(help, w, k, s, (w, k.(pc := Handler)));
      HandlerEndsAs(help, w, k.(pc := Handler), s);
    } else {
      AloneNext(help, w, k, s, (SetStatus(w, Failed), k.(pc := Finished)));
      FinishedAs(help, SetStatus(w, Failed), k.(pc := Finished), s);
    }
  }

  lemma ReclaimedEndsAs(help: nat, w: World, k: Worker, s: Script)
    requires Answering(w, k) && k.pc.Reclaimed?
    ensures EndsAs(RunAlone(help, w, k, s),
                if w.room.state.Open? && !s.lockRaises then StatusWithRoom(s)
                else if s.noLockMarkRaises then Handled(s, Running) else Failed, s)
  {
    hide RunAlone;
    if w.room.state.Open? && !s.lockRaises {
      var leased := Acquire(w, OwnerOf(help), false, false);
      var next := k.(pc := Locked(w.nextToken), token := Some(w.nextToken));
      AloneNext(help, w, k, s, (leased, next));
      LockedEndsAs(help, leased, next, s);
    } else {
      AloneNext(help, w, k, s, (w, k.(pc := NoLock)));
      NoLockEndsAs(help, w, k.(pc := NoLock), s);
    }
  }

  lemma PreemptedEndsAs(help: nat, w: World, k: Worker, s: Script)
    requires Answering(w, k) && k.pc.Preempted? && RoomOk(w) && !HelpLease(help, w.room)
    ensures EndsAs(RunAlone(help, w, k, s),
                if !s.reclaimRaises && !s.lockRaises && (w.room.state.Open? || w.room.expired) then StatusWithRoom(s)
                else if s.noLockMarkRaises then Handled(s, Running) else Failed, s)
  {
    hide RunAlone;
    if s.reclaimRaises {
      AloneNext(help, w, k, s, (w, k.(pc := NoLock)));
      NoLockEndsAs(help, w, k.(pc := NoLock), s);
    } else {
      var freed := ExpireLease(help, w);
      AloneNext(help, w, k, s, (freed, k.(pc := Reclaimed)));
      assert freed.request == w.request && (freed.room.state.Open? <==> w.room.state.Open? || w.room.expired);
      ReclaimedEndsAs(help, freed, k.(pc := Reclaimed), s);
    }
  }

  lemma ClaimedEndsAs(help: nat, w: World, k: Worker, s: Script)
    requires Answering(w, k) && k.pc.Claimed? && RoomOk(w) && !HelpLease(help, w.room)
    ensures EndsAs(RunAlone(help, w, k, s),
                if s.setupRaises then Handled(s, Running)
                else if HasRoom(w.room, s) then StatusWithRoom(s)
                else if s.noLockMarkRaises then Handled(s, Running) else Failed, s)
  {
    hide RunAlone;
    if s.setupRaises {
      AloneNext(help, w, k, s, (w, k.(pc := Handler)));
      HandlerEndsAs(help, w, k.(pc := Handler), s);
    } else if s.preemptRaises {
      AloneNext(help, w, k, s, (w, k.(pc := NoLock)));
      NoLockEndsAs(help, w, k.(pc := NoLock), s);
    } else {
      AloneNext(help, w, k, s, (Preempt(w), k.(pc := Preempted)));
      PreemptedEndsAs(help, Preempt(w), k.(pc := Preempted), s);
    }
  }

  /**
   A job run alone on a waiting request, exit by exit: Failed when there is no room, no
   suggestion, a refusal or an exception; completed, with the stored message, exactly
   when the publication went through, as a fallback when it was one; and otherwise
   what the handler found, when its final mark raises too.
   */
  lemma JobEndsExactly(help: nat, w: World, s: Script)
    requires RoomOk(w) && RequestOk(help, w) && Waiting(w.request.value.status)
    ensures EndsAs(RunAlone(help, w, FRESH_WORKER, s), EndStatus(w.request.value.status, w.room, s), s)
  {
    hide RunAlone;
    var loaded := Worker(Loaded, false, None);
    if s.loadRaises {
      AloneNext(help, w, FRESH_WORKER, s, (w, Worker(Handler, false, None)));
      HandlerEndsAs(help, w, Worker(Handler, false, None), s);
    } else {
      AloneNext(help, w, FRESH_WORKER, s, (w, loaded));
      if s.claimRaises {
        AloneNext(help, w, loaded, s, (w, Worker(Handler, false, None)));
        HandlerEndsAs(help, w, Worker(Handler, false, None), s);
      } else {
        AloneNext(help, w, loaded, s, (SetStatus(w, Running), Worker(Claimed, true, None)));
        ClaimedEndsAs(help, SetStatus(w, Running), Worker(Claimed, true, None), s);
      }
    }
  }

  /** The marks that have to raise for a job alone to leave a waiting request unfinished. */
  lemma UnfinishedExactly(waiting: Status, room: Room, s: Script)
    requires Waiting(waiting)
    ensures !Terminal(EndStatus(waiting, room, s)) <==>
            && s.handlerMarkRaises
            && (|| s.loadRaises || s.claimRaises || s.setupRaises
                || (!HasRoom(room, s) && s.noLockMarkRaises)
                || (HasRoom(room, s) && s.prepareRaises)
                || (HasRoom(room, s) && !s.suggestion && s.noSuggestionMarkRaises)
                || (HasRoom(room, s) && s.suggestion && s.publish.Raises? && s.exceptMarkRaises)
                || (HasRoom(room, s) && s.suggestion && s.publish.Refuses?
                    && s.refusedMarkRaises && s.exceptMarkRaises))
  {}
}
