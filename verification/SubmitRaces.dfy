/**
 The document handlers as the server runs them: any number at once, statement by
 statement (routes/collaborative_api.py).
 */
module SubmitRaces {
  import opened DocumentSubmit
  import opened Tables

  /** The statement a handler is at. */
  datatype Pc =
    | Checking
    | Freezing | Flushing | Cleaning | Creating | Undoing
    | Verifying | Updating | Rereading | Recording | Marking | Reporting | Closing | Compensating
    | Clearing | Thawing
    | Asking | Loosening | Returning | Noting
    | Installing(frozen: bool)

  datatype Progress = Next(pc: Pc) | Gone(response: Response)

  function PrepareStep(d: Doc, r: Request, pc: Pc): (Doc, Progress)
    requires r.PrepareReq?
  {
    match pc
    case Checking =>
      (d, if d.status.Submitted? || d.status.Locked? || !r.mayEdit then Gone(Refused) else Next(Freezing))
    case Freezing => (Freeze(d, r.freeze), if FreezeOk(d, r.freeze) then Next(Flushing) else Gone(Error500))
    case Flushing =>
      (d, if r.flush.Throws? then Gone(Error500) else if r.flush.Works? then Next(Cleaning) else Next(Undoing))
    case Cleaning => if r.cleanup.Works? then (Cleanup(d), Next(Creating)) else (d, Gone(Error500))
    case Creating =>
      if r.create.Reports? then (d, Next(Undoing))
      else if !r.create.Works? then (d, Gone(Error500))
      else (d.(prepares := d.prepares + [Prepare(r.freezeId, r.revision, r.user, false)]), Gone(Ok200))
    case _ => (Unfreeze(d), Gone(Error500))
  }

  /** The update sets the status only where it is not submitted yet; either way the row then reads as submitted. */
  function CommitStep(d: Doc, r: Request, pc: Pc): (Doc, Progress)
    requires r.CommitReq?
  {
    match pc
    case Checking => (d, if d.status.Submitted? || !r.mayEdit then Gone(Refused) else Next(Verifying))
    case Verifying => (d, if Verified(d, r.freezeId, r.revision, r.user) then Next(Updating) else Gone(Refused))
    case Updating => if r.update.Works? then (d.(status := Submitted), Next(Rereading)) else (d, Next(Compensating))
    case Rereading => (d, if d.status.Submitted? then Next(Recording) else Next(Compensating))
    case Recording => (d, if r.record.Works? then Next(Marking) else Next(Compensating))
    case Marking =>
      if r.mark.Works? then (d.(prepares := MarkCommitted(d.prepares, r.freezeId)), Next(Reporting))
      else (d, Next(Compensating))
    case Reporting => (d, if r.event.Throws? then Next(Compensating) else Next(Closing))
    case Closing =>
      if r.close.Throws? then (d, Next(Compensating))
      else (if r.close.Reports? then d else d.(frozen := None), Gone(Ok200))
    case _ => (Unfreeze(d), Gone(Error500))
  }

  function UnfreezeStep(d: Doc, r: Request, pc: Pc): (Doc, Progress)
    requires r.UnfreezeReq?
  {
    match pc
    case Checking => (d, if d.status.Submitted? || !r.mayEdit then Gone(Refused) else Next(Clearing))
    case Clearing => if r.cleanup.Works? then (Cleanup(d), Next(Thawing)) else (d, Gone(Error500))
    case _ => (Unfreeze(d), Gone(Ok200))
  }

  function ReturnStep(d: Doc, r: Request, pc: Pc): (Doc, Progress)
    requires r.ReturnReq?
  {
    match pc
    case Checking =>
      (d, if !r.mayView || !(d.status.Submitted? || d.status.Editing?) then Gone(Refused) else Next(Asking))
    case Asking =>
      (d, if r.roomStatus.Throws? then Gone(Error500)
          else if r.roomStatus.Works? && d.frozen.Some? then Next(Loosening) else Next(Returning))
    case Returning => if r.setStatus.Works? then (d.(status := Returned), Next(Noting)) else (d, Gone(Error500))
    case Noting => (d, Gone(if r.event.Throws? then Error500 else Ok200))
    case _ => (Unfreeze(d), Next(Returning))
  }

  /** Opening a room reads the status first and puts the room in place then. */
  function OpenStep(d: Doc, pc: Pc): (Doc, Progress) {
    match pc
    case Installing(frozen) => (if d.frozen.None? then d.(frozen := Some(frozen)) else d, Gone(Ok200))
    case _ => (d, Next(Installing(d.status.Submitted? || d.status.Locked?)))
  }

  /** A request and the statement its handler is at. */
  datatype Handler = Handler(request: Request, pc: Pc)

  function Advance(d: Doc, h: Handler): (Doc, Progress) {
    match h.request
    case PrepareReq(_, _, _, _, _, _, _, _) => PrepareStep(d, h.request, h.pc)
    case CommitReq(_, _, _, _, _, _, _, _, _) => CommitStep(d, h.request, h.pc)
    case UnfreezeReq(_, _) => UnfreezeStep(d, h.request, h.pc)
    case ReturnReq(_, _, _, _) => ReturnStep(d, h.request, h.pc)
    case OpenReq => OpenStep(d, h.pc)
  }

  // ---------------------------------------------------------------- alone

  /** Up to n statements of a handler nobody comes between. */
  function Alone(d: Doc, h: Handler, n: nat): (Doc, Progress)
    decreases n
  {
    if n == 0 then (d, Next(h.pc)) else
      var (after, progress) := Advance(d, h);
      if progress.Gone? then (after, progress) else Alone(after, Handler(h.request, progress.pc), n - 1)
  }

  /** A commit whose update a return has undone by the time the row is read again fails, and thaws the room. */
  lemma OvertakenCommitFails(d: Doc, r: Request, n: nat)
    requires r.CommitReq? && !d.status.Submitted? && n >= 2
    ensures var (after, progress) := Alone(d, Handler(r, Rereading), n);
            && progress == Gone(Error500) && !Frozen(after)
            && after.status == d.status && after.prepares == d.prepares
  {
    var handler := Handler(r, Rereading);
    assert Advance(d, handler) == (d, Next(Compensating));
    assert Advance(d, Handler(r, Compensating)).1 == Gone(Error500);
  }

  /** The statements after a freeze that went through. */
  lemma FrozenAlone(d: Doc, r: Request)
    requires r.PrepareReq?
    ensures Alone(d, Handler(r, Flushing), 4) ==
            var clean := Cleanup(d);
            if r.flush.Throws? then (d, Gone(Error500))
            else if !r.flush.Works? then (Unfreeze(d), Gone(Error500))
            else if !r.cleanup.Works? then (d, Gone(Error500))
            else if r.create.Reports? then (Unfreeze(clean), Gone(Error500))
            else if !r.create.Works? then (clean, Gone(Error500))
            else (clean.(prepares := clean.prepares + [Prepare(r.freezeId, r.revision, r.user, false)]), Gone(Ok200))
  {
    var clean := Cleanup(d);
    assert Alone(clean, Handler(r, Creating), 2) ==
           if r.create.Reports? then Alone(clean, Handler(r, Undoing), 1) else Advance(clean, Handler(r, Creating));
    assert r.flush.Works? ==> Alone(d, Handler(r, Flushing), 4) == Alone(d, Handler(r, Cleaning), 3);
  }

  lemma PrepareAlone(d: Doc, r: Request)
    requires r.PrepareReq?
    ensures Alone(d, Handler(r, Checking), 6) == (Handle(d, r).0, Gone(Handle(d, r).1))
  {
    FrozenAlone(Freeze(d, r.freeze), r);
    if Advance(d, Handler(r, Checking)).1.Next? {
      assert Alone(d, Handler(r, Checking), 6) == Alone(d, Handler(r, Freezing), 5);
    }
  }

  lemma CompensatedAlone(d: Doc, r: Request, n: nat)
    requires r.CommitReq? && n > 0
    ensures Alone(d, Handler(r, Compensating), n) == (Unfreeze(d), Gone(Error500))
  {}

  /** The statements after the prepare record is marked. */
  lemma MarkedAlone(d: Doc, r: Request)
    requires r.CommitReq?
    ensures Alone(d, Handler(r, Reporting), 3) ==
            if r.event.Throws? || r.close.Throws? then (Unfreeze(d), Gone(Error500))
            else (if r.close.Reports? then d else d.(frozen := None), Gone(Ok200))
  {
    CompensatedAlone(d, r, 2);
    CompensatedAlone(d, r, 1);
    assert !r.event.Throws? ==> Alone(d, Handler(r, Reporting), 3) == Alone(d, Handler(r, Closing), 2);
  }

  /** The statements after the status update. */
  lemma SubmittedAlone(d: Doc, r: Request)
    requires r.CommitReq? && d.status.Submitted?
    ensures Alone(d, Handler(r, Rereading), 6) ==
            if !r.record.Works? || !r.mark.Works? then (Unfreeze(d), Gone(Error500))
            else Alone(d.(prepares := MarkCommitted(d.prepares, r.freezeId)), Handler(r, Reporting), 3)
  {
    CompensatedAlone(d, r, 4);
    CompensatedAlone(d, r, 3);
    assert Alone(d, Handler(r, Rereading), 6) == Alone(d, Handler(r, Recording), 5);
    assert r.record.Works? ==> Alone(d, Handler(r, Recording), 5) == Alone(d, Handler(r, Marking), 4);
  }

  lemma WritesAlone(d: Doc, r: Request)
    requires r.CommitReq?
    ensures var written := WriteSubmission(d, r);
            Alone(d, Handler(r, Updating), 7) ==
            if written.1 then (written.0, Gone(Ok200)) else (Unfreeze(written.0), Gone(Error500))
  {
    CompensatedAlone(d, r, 6);
    SubmittedAlone(d.(status := Submitted), r);
    MarkedAlone(d.(status := Submitted, prepares := MarkCommitted(d.prepares, r.freezeId)), r);
  }

  lemma CommitAlone(d: Doc, r: Request)
    requires r.CommitReq?
    ensures Alone(d, Handler(r, Checking), 9) == (Handle(d, r).0, Gone(Handle(d, r).1))
  {
    if !d.status.Submitted? { WritesAlone(d, r); }
    assert r.mayEdit && !d.status.Submitted? ==>
        Alone(d, Handler(r, Checking), 9) == Alone(d, Handler(r, Verifying), 8);
  }

  lemma StatusAlone(d: Doc, r: Request, n: nat)
    requires r.ReturnReq? && n > 1
    ensures Alone(d, Handler(r, Returning), n) ==
            if !r.setStatus.Works? then (d, Gone(Error500))
            else (d.(status := Returned), Gone(if r.event.Throws? then Error500 else Ok200))
  {
    assert r.setStatus.Works? ==>
        Alone(d, Handler(r, Returning), n) == Alone(d.(status := Returned), Handler(r, Noting), n - 1);
  }

  lemma ReturnAlone(d: Doc, r: Request)
    requires r.ReturnReq?
    ensures Alone(d, Handler(r, Checking), 5) == (Handle(d, r).0, Gone(Handle(d, r).1))
  {
    StatusAlone(d, r, 3);
    StatusAlone(Unfreeze(d), r, 2);
    assert Alone(d, Handler(r, Loosening), 3) == Alone(Unfreeze(d), Handler(r, Returning), 2);
    if Advance(d, Handler(r, Checking)).1.Next? {
      assert Alone(d, Handler(r, Checking), 5) == Alone(d, Handler(r, Asking), 4);
    }
  }

  lemma {:induction false} AloneLonger(d: Doc, h: Handler, n: nat, more: nat)
    requires Alone(d, h, n).1.Gone? && n <= more
    ensures Alone(d, h, more) == Alone(d, h, n)
    decreases n
  {
    if n > 0 && Advance(d, h).1.Next? {
      AloneLonger(Advance(d, h).0, Handler(h.request, Advance(d, h).1.pc), n - 1, more - 1);
    }
  }

  /** A handler nobody comes between does what the request is specified to do. */
  lemma AloneIsHandle(d: Doc, r: Request)
    ensures Alone(d, Handler(r, Checking), 9) == (Handle(d, r).0, Gone(Handle(d, r).1))
  {
    match r
    case PrepareReq(_, _, _, _, _, _, _, _) =>
      PrepareAlone(d, r);
      AloneLonger(d, Handler(r, Checking), 6, 9);
    case CommitReq(_, _, _, _, _, _, _, _, _) => CommitAlone(d, r);
    case UnfreezeReq(_, _) =>
      assert Alone(d, Handler(r, Checking), 3) == (Handle(d, r).0, Gone(Handle(d, r).1));
      AloneLonger(d, Handler(r, Checking), 3, 9);
    case ReturnReq(_, _, _, _) =>
      ReturnAlone(d, r);
      AloneLonger(d, Handler(r, Checking), 5, 9);
    case OpenReq =>
      assert Alone(d, Handler(r, Checking), 2) == (Handle(d, r).0, Gone(Handle(d, r).1));
      AloneLonger(d, Handler(r, Checking), 2, 9);
  }

  // ---------------------------------------------------------------- any number at once

  datatype Server = Server(doc: Doc, handlers: map<int, Handler>)

  /** `Recycle`: the collaboration server drops a room nobody uses. */
  datatype Move = Begin(who: int, request: Request) | Step(who: int) | Die(who: int) | Recycle

  function Moved(s: Server, m: Move): Server {
    match m
    case Begin(who, r) => if who in s.handlers then s else s.(handlers := s.handlers[who := Handler(r, Checking)])
    case Step(who) =>
      if who !in s.handlers then s else
        var (after, progress) := Advance(s.doc, s.handlers[who]);
        Server(after, if progress.Gone? then s.handlers - {who}
            else s.handlers[who := Handler(s.handlers[who].request, progress.pc)])
    case Die(who) => s.(handlers := s.handlers - {who})
    case Recycle => s.(doc := s.doc.(frozen := None))
  }

  function MovedAll(s: Server, ms: seq<Move>): Server {
    if ms == [] then s else Moved(MovedAll(s, ms[..|ms| - 1]), ms[|ms| - 1])
  }

  /** The handler is bound to deal with the freeze: between it and the prepare record, or about to unfreeze or close. */
  predicate Holds(h: Handler) {
    match h.request
    case PrepareReq(_, _, _, _, _, _, _, _) => h.pc.Flushing? || h.pc.Cleaning? || h.pc.Creating? || h.pc.Undoing?
    case CommitReq(_, _, _, _, _, _, _, _, _) => h.pc.Reporting? || h.pc.Closing? || h.pc.Compensating?
    case UnfreezeReq(_, _) => h.pc.Thawing?
    case ReturnReq(_, _, _, _) => h.pc.Loosening?
    case OpenReq => false
  }

  predicate HeldByOther(handlers: map<int, Handler>, who: int) {
    exists v :: v in handlers && v != who && Holds(handlers[v])
  }

  predicate Held(handlers: map<int, Handler>) { exists v :: v in handlers && Holds(handlers[v]) }

  /** An open prepare waits for its commit, or the document is out of the students' hands. */
  predicate Covered(d: Doc) { OpenPrepare(d) || d.status.Submitted? || d.status.Locked? }

  /** A frozen room is covered, or some handler is bound to deal with it. */
  predicate Justified(s: Server) { Frozen(s.doc) ==> Covered(s.doc) || Held(s.handlers) }

  /** The handler ends here without record, unfreeze or close. */
  predicate GivesUp(h: Handler) {
    match h.request
    case PrepareReq(_, _, _, flush, _, cleanup, create, _) =>
      || (h.pc.Flushing? && flush.Throws?)
      || (h.pc.Cleaning? && !cleanup.Works?)
      || (h.pc.Creating? && (create.Throws? || create.Lost?))
    case CommitReq(_, _, _, _, _, _, _, _, close) => h.pc.Closing? && close.Reports?
    case _ => false
  }

  /**
   Moves that strand a frozen room nobody else holds: a freeze whose answer is lost, a
   handler that gives up or dies while it holds the room, a return that sets the status
   while the room is frozen, and a room put in place frozen by a status that is past.
   */
  predicate StrandsNow(s: Server, m: Move) {
    && (m.Step? || m.Die?) && m.who in s.handlers && !HeldByOther(s.handlers, m.who)
    && var d, h := s.doc, s.handlers[m.who];
       if m.Die? then Holds(h) && Frozen(d) && !Covered(d)
       else
         || (h.request.PrepareReq? && h.pc.Freezing? && h.request.freeze.Lost? && d.frozen.Some? && !Covered(d))
         || (GivesUp(h) && Frozen(d) && !Covered(d))
         || (h.request.ReturnReq? && h.pc.Returning? && h.request.setStatus.Works? && Frozen(d) && !OpenPrepare(d))
         || (h.request.OpenReq? && h.pc == Installing(true) && d.frozen.None? && !Covered(d))
  }

  lemma HeldSplits(handlers: map<int, Handler>, who: int)
    ensures Held(handlers) <==> HeldByOther(handlers, who) || (who in handlers && Holds(handlers[who]))
  {}

  lemma HeldPut(handlers: map<int, Handler>, who: int, h: Handler)
    ensures Held(handlers[who := h]) <==> HeldByOther(handlers, who) || Holds(h)
  {
    var after := handlers[who := h];
    HeldSplits(after, who);
    assert forall v :: v in after && v != who <==> v in handlers && v != who;
    assert forall v :: v in handlers && v != who ==> after[v] == handlers[v];
  }

  lemma HeldDropped(handlers: map<int, Handler>, who: int)
    ensures Held(handlers - {who}) <==> HeldByOther(handlers, who)
  {
    var after := handlers - {who};
    assert forall v :: v in after <==> v in handlers && v != who;
    assert forall v :: v in after ==> after[v] == handlers[v];
  }

  /** Whether anyone holds the room after a handler's statement. */
  predicate HeldAfter(h: Handler, progress: Progress) { progress.Next? && Holds(Handler(h.request, progress.pc)) }

  lemma PrepareStepExactly(d: Doc, h: Handler)
    requires h.request.PrepareReq? && (Frozen(d) ==> Covered(d) || Holds(h))
    ensures var (after, progress) := Advance(d, h);
            (Frozen(after) ==> Covered(after) || HeldAfter(h, progress)) <==>
            !((h.pc.Freezing? && h.request.freeze.Lost? && d.frozen.Some? && !Covered(d))
              || (GivesUp(h) && Frozen(d) && !Covered(d)))
  {
    var (after, progress) := Advance(d, h);
    if h.pc.Creating? && progress == Gone(Ok200) {
      assert !after.prepares[|after.prepares| - 1].committed;
    }
  }

  lemma CommitStepExactly(d: Doc, h: Handler)
    requires h.request.CommitReq? && (Frozen(d) ==> Covered(d) || Holds(h))
    ensures var (after, progress) := Advance(d, h);
            (Frozen(after) ==> Covered(after) || HeldAfter(h, progress)) <==>
            !(GivesUp(h) && Frozen(d) && !Covered(d))
  {}

  lemma ReturnStepExactly(d: Doc, h: Handler)
    requires h.request.ReturnReq? && (Frozen(d) ==> Covered(d) || Holds(h))
    ensures var (after, progress) := Advance(d, h);
            (Frozen(after) ==> Covered(after) || HeldAfter(h, progress)) <==>
            !(h.pc.Returning? && h.request.setStatus.Works? && Frozen(d) && !OpenPrepare(d))
  {}

  lemma HandlerStepExactly(d: Doc, h: Handler)
    requires Frozen(d) ==> Covered(d) || Holds(h)
    ensures var (after, progress) := Advance(d, h);
            (Frozen(after) ==> Covered(after) || HeldAfter(h, progress)) <==>
            !StrandsNow(Server(d, map[0 := h]), Step(0))
  {
    assert !HeldByOther(map[0 := h], 0);
    match h.request
    case PrepareReq(_, _, _, _, _, _, _, _) => PrepareStepExactly(d, h);
    case CommitReq(_, _, _, _, _, _, _, _, _) => CommitStepExactly(d, h);
    case ReturnReq(_, _, _, _) => ReturnStepExactly(d, h);
    case _ =>
  }

  lemma StepHeld(s: Server, who: int)
    requires who in s.handlers
    ensures var (after, progress) := Advance(s.doc, s.handlers[who]);
            && Moved(s, Step(who)).doc == after
            && (Held(Moved(s, Step(who)).handlers) <==>
                HeldByOther(s.handlers, who) || HeldAfter(s.handlers[who], progress))
  {
    var (after, progress) := Advance(s.doc, s.handlers[who]);
    if progress.Gone? { HeldDropped(s.handlers, who); }
    else { HeldPut(s.handlers, who, Handler(s.handlers[who].request, progress.pc)); }
  }

  /** Exactly these moves break the rule, however many handlers are at work. */
  lemma MoveKeepsJustifiedExactly(s: Server, m: Move)
    requires Justified(s)
    ensures Justified(Moved(s, m)) <==> !StrandsNow(s, m)
  {
    match m
    case Begin(who, r) =>
      HeldSplits(s.handlers, who);
      if who !in s.handlers { HeldPut(s.handlers, who, Handler(r, Checking)); }
    case Die(who) =>
      HeldSplits(s.handlers, who);
      HeldDropped(s.handlers, who);
    case Recycle =>
    case Step(who) =>
      if who in s.handlers {
        HeldSplits(s.handlers, who);
        StepHeld(s, who);
        if !HeldByOther(s.handlers, who) {
          HandlerStepExactly(s.doc, s.handlers[who]);
          assert StrandsNow(s, m) <==> StrandsNow(Server(s.doc, map[0 := s.handlers[who]]), Step(0)) by {
            assert !HeldByOther(map[0 := s.handlers[who]], 0);
          }
        }
      }
  }

  /**
   However handlers interleave, as long as no move strands the room a frozen room is
   covered or in a handler's care; when no handler is at work, it is covered.
   */
  lemma {:induction false} RacesKeepJustified(s: Server, ms: seq<Move>)
    requires Justified(s)
    requires forall i :: 0 <= i < |ms| ==> !StrandsNow(MovedAll(s, ms[..i]), ms[i])
    ensures Justified(MovedAll(s, ms))
    ensures MovedAll(s, ms).handlers == map[] ==> FrozenJustified(MovedAll(s, ms).doc)
  {
    if ms != [] {
      var init := ms[..|ms| - 1];
      assert forall i :: 0 <= i < |init| ==> init[..i] == ms[..i];
      RacesKeepJustified(s, init);
      MoveKeepsJustifiedExactly(MovedAll(s, init), ms[|ms| - 1]);
    }
  }

  // ---------------------------------------------------------------- a race without a failure

  lemma MovedNext(s: Server, init: seq<Move>, m: Move)
    ensures MovedAll(s, init + [m]) == Moved(MovedAll(s, init), m)
  {
    assert (init + [m])[..|init|] == init;
  }

  const RETURN := ReturnReq(true, Works, Works, Works)

  const TICKETS := [Prepare(0, 0, 1, true)]

  const HANDED_IN := Doc(Submitted, None, TICKETS)

  /** A new document is opened, prepared and committed with every call working. */
  lemma HandedIn()
    ensures HandleAll(NEW_DOCUMENT, [OpenReq, PREPARE, COMMIT.(close := Works)]) == HANDED_IN
  {
    CloseFails();
    HandleNext(NEW_DOCUMENT, [OpenReq, PREPARE], COMMIT.(close := Works));
    assert [OpenReq, PREPARE] + [COMMIT.(close := Works)] == [OpenReq, PREPARE, COMMIT.(close := Works)];
    assert MarkCommitted([Prepare(0, 0, 1, false)], 0) == TICKETS;
  }

  lemma StepMoves(s: Server, who: int, h: Handler, after: Doc, pc: Pc)
    requires who in s.handlers && s.handlers[who] == h && Advance(s.doc, h) == (after, Next(pc))
    ensures Moved(s, Step(who)) == Server(after, s.handlers[who := Handler(h.request, pc)])
  {}

  lemma StepEnds(s: Server, who: int, h: Handler, after: Doc, response: Response)
    requires who in s.handlers && s.handlers[who] == h && Advance(s.doc, h) == (after, Gone(response))
    ensures Moved(s, Step(who)) == Server(after, s.handlers - {who})
  {}

  const FROZEN := Doc(Submitted, Some(true), TICKETS)

  const BACK := Doc(Returned, Some(true), TICKETS)

  /** The return alone at work, at this statement. */
  function ReturnAt(pc: Pc): map<int, Handler> { map[1 := Handler(RETURN, pc)] }

  lemma ReturnMoves(d: Doc, from: Pc, after: Doc, to: Pc)
    requires Advance(d, Handler(RETURN, from)) == (after, Next(to))
    ensures Moved(Server(d, ReturnAt(from)), Step(1)) == Server(after, ReturnAt(to))
  {
    StepMoves(Server(d, ReturnAt(from)), 1, Handler(RETURN, from), after, to);
    assert ReturnAt(from)[1 := Handler(RETURN, to)] == ReturnAt(to);
  }

  /** The return asks and finds no active room. */
  lemma ReturnAsks()
    ensures Moved(Server(HANDED_IN, map[]), Begin(1, RETURN)) == Server(HANDED_IN, ReturnAt(Checking))
    ensures Moved(Server(HANDED_IN, ReturnAt(Checking)), Step(1)) == Server(HANDED_IN, ReturnAt(Asking))
    ensures Moved(Server(HANDED_IN, ReturnAt(Asking)), Step(1)) == Server(HANDED_IN, ReturnAt(Returning))
  {
    ReturnMoves(HANDED_IN, Checking, HANDED_IN, Asking);
    ReturnMoves(HANDED_IN, Asking, HANDED_IN, Returning);
  }

  /** Both at work, the opening at this statement. */
  function BothAt(pc: Pc): map<int, Handler> { map[1 := Handler(RETURN, Returning), 2 := Handler(OpenReq, pc)] }

  /** The room is opened, frozen because the document still is submitted. */
  lemma RoomOpens()
    ensures Moved(Server(HANDED_IN, ReturnAt(Returning)), Begin(2, OpenReq)) == Server(HANDED_IN, BothAt(Checking))
    ensures Moved(Server(HANDED_IN, BothAt(Checking)), Step(2)) == Server(HANDED_IN, BothAt(Installing(true)))
    ensures Moved(Server(HANDED_IN, BothAt(Installing(true))), Step(2)) == Server(FROZEN, ReturnAt(Returning))
  {
    assert ReturnAt(Returning)[2 := Handler(OpenReq, Checking)] == BothAt(Checking);
    StepMoves(Server(HANDED_IN, BothAt(Checking)), 2, Handler(OpenReq, Checking), HANDED_IN, Installing(true));
    assert BothAt(Checking)[2 := Handler(OpenReq, Installing(true))] == BothAt(Installing(true));
    StepEnds(Server(HANDED_IN, BothAt(Installing(true))), 2, Handler(OpenReq, Installing(true)), FROZEN, Ok200);
    assert BothAt(Installing(true)) - {2} == ReturnAt(Returning);
  }

  /** The return goes on. */
  lemma ReturnEnds()
    ensures Moved(Server(FROZEN, ReturnAt(Returning)), Step(1)) == Server(BACK, ReturnAt(Noting))
    ensures Moved(Server(BACK, ReturnAt(Noting)), Step(1)) == Server(BACK, map[])
  {
    ReturnMoves(FROZEN, Returning, BACK, Noting);
    StepEnds(Server(BACK, ReturnAt(Noting)), 1, Handler(RETURN, Noting), BACK, Ok200);
    assert ReturnAt(Noting) - {1} == map[];
  }

  lemma FourMoves(s: Server, a: Move, b: Move, c: Move, d: Move)
    ensures MovedAll(s, [a, b, c, d]) == Moved(Moved(Moved(Moved(s, a), b), c), d)
  {
    hide Moved;
    assert [a, b, c, d][..3] == [a, b, c] && [a, b, c][..2] == [a, b] && [a, b][..1] == [a];
    assert MovedAll(s, [a]) == Moved(s, a);
    assert MovedAll(s, [a, b]) == Moved(Moved(s, a), b);
    assert MovedAll(s, [a, b, c]) == Moved(Moved(Moved(s, a), b), c);
  }

  lemma {:induction false} MovedConcat(s: Server, xs: seq<Move>, ys: seq<Move>)
    ensures MovedAll(s, xs + ys) == MovedAll(MovedAll(s, xs), ys)
  {
    if ys == [] {
      assert xs + ys == xs;
    } else {
      var init, y := ys[..|ys| - 1], ys[|ys| - 1];
      MovedConcat(s, xs, init);
      MovedNext(s, xs + init, y);
      assert xs + ys == xs + init + [y];
    }
  }

  /**
   A document handed in is returned; between the return's status call and its status
   write a student opens the room. Every call works, and the room of the returned
   document is frozen with nothing to commit.
   */
  lemma LateOpenStrands()
    ensures var d := HandleAll(NEW_DOCUMENT, [OpenReq, PREPARE, COMMIT.(close := Works)]);
            var ask := [Begin(1, RETURN), Step(1), Step(1), Begin(2, OpenReq)];
            var answer := [Step(2), Step(2), Step(1), Step(1)];
            MovedAll(Server(d, map[]), ask + answer) == Server(BACK, map[]) && !FrozenJustified(BACK)
  {
    var ask := [Begin(1, RETURN), Step(1), Step(1), Begin(2, OpenReq)];
    var answer := [Step(2), Step(2), Step(1), Step(1)];
    HandedIn();
    MovedConcat(Server(HANDED_IN, map[]), ask, answer);
    FourMoves(Server(HANDED_IN, map[]), Begin(1, RETURN), Step(1), Step(1), Begin(2, OpenReq));
    FourMoves(Server(HANDED_IN, BothAt(Checking)), Step(2), Step(2), Step(1), Step(1));
    ReturnAsks();
    RoomOpens();
    ReturnEnds();
  }
}
