/**
 Two-phase document submission (routes/collaborative_api.py): prepare freezes the
 editing room, commit submits, unfreeze and teacher return undo. Each internal
 call may succeed, report failure, or raise.
 */
module DocumentSubmit {
  import opened Tables

  datatype DocStatus = Editing | Returned | Submitted | Locked

  datatype Prepare = Prepare(freezeId: nat, revision: int, user: int, committed: bool)

  /** `frozen` is None while no collaboration room is active. */
  datatype Doc = Doc(status: DocStatus, frozen: Option<bool>, prepares: seq<Prepare>)

  /** What one call turns out to do. Lost: it takes effect, but its answer times out and reads as a failure. */
  datatype Call = Works | Reports | Lost | Throws

  datatype Response = Ok200 | Refused | Error500

  predicate Frozen(d: Doc) { d.frozen == Some(true) }

  predicate OpenPrepare(d: Doc) { exists i :: 0 <= i < |d.prepares| && !d.prepares[i].committed }

  /** A frozen room is waiting for a commit, or its document is out of the students' hands. */
  predicate FrozenJustified(d: Doc) { Frozen(d) ==> OpenPrepare(d) || d.status.Submitted? || d.status.Locked? }

  // ---------------------------------------------------------------- internal calls

  /** freeze: answers ok only for an active room. */
  function Freeze(d: Doc, call: Call): Doc {
    if (call.Works? || call.Lost?) && d.frozen.Some? then d.(frozen := Some(true)) else d
  }

  predicate FreezeOk(d: Doc, call: Call) { call.Works? && d.frozen.Some? }

  /** unfreeze is taken to succeed. */
  function Unfreeze(d: Doc): Doc { if d.frozen.Some? then d.(frozen := Some(false)) else d }

  function Cleanup(d: Doc): Doc { d.(prepares := []) }

  /** Opening a room reads the frozen flag off the document status. */
  function OpenRoom(d: Doc): Doc {
    if d.frozen.None? then d.(frozen := Some(d.status.Submitted? || d.status.Locked?)) else d
  }

  function MarkCommitted(ps: seq<Prepare>, freezeId: nat): seq<Prepare> {
    seq(|ps|, i requires 0 <= i < |ps| => if ps[i].freezeId == freezeId then ps[i].(committed := true) else ps[i])
  }

  function FindPrepare(ps: seq<Prepare>, freezeId: nat): (found: Option<Prepare>)
    ensures found.Some? ==> found.value in ps && found.value.freezeId == freezeId
    ensures found.None? ==> forall p :: p in ps ==> p.freezeId != freezeId
  {
    if ps == [] then None else if ps[0].freezeId == freezeId then Some(ps[0]) else FindPrepare(ps[1..], freezeId)
  }

  /** verify_prepare. */
  predicate Verified(d: Doc, freezeId: nat, revision: int, user: int) {
    var p := FindPrepare(d.prepares, freezeId);
    p.Some? && p.value.revision == revision && p.value.user == user && !p.value.committed
  }

  // ---------------------------------------------------------------- requests

  datatype Request =
    | PrepareReq(user: int, mayEdit: bool, freeze: Call, flush: Call, revision: int, cleanup: Call, create: Call,
        freezeId: nat)
    | CommitReq(user: int, mayEdit: bool, freezeId: nat, revision: int, update: Call, record: Call, mark: Call,
        event: Call, close: Call)
    | UnfreezeReq(mayEdit: bool, cleanup: Call)
    | ReturnReq(mayView: bool, roomStatus: Call, setStatus: Call, event: Call)
    | OpenReq

  /** api_collab_document_prepare. A raised exception leaves the handler without compensation. */
  function Prepared(d: Doc, r: Request): (Doc, Response)
    requires r.PrepareReq?
  {
    if d.status.Submitted? || d.status.Locked? || !r.mayEdit then (d, Refused)
    else
      var frozen := Freeze(d, r.freeze);
      if !FreezeOk(d, r.freeze) || r.flush.Throws? then (frozen, Error500)
      else if !r.flush.Works? then (Unfreeze(frozen), Error500)
      else if !r.cleanup.Works? then (frozen, Error500)
      else
        var clean := Cleanup(frozen);
        if r.create.Reports? then (Unfreeze(clean), Error500)
        else if !r.create.Works? then (clean, Error500)
        else (clean.(prepares := clean.prepares + [Prepare(r.freezeId, r.revision, r.user, false)]), Ok200)
  }

  /** The try block of the commit handler: auto-committed writes, in order, up to the first that raises. */
  function WriteSubmission(d: Doc, r: Request): (Doc, bool)
    requires r.CommitReq?
  {
    if !r.update.Works? then (d, false)
    else
      var submitted := d.(status := Submitted);
      if !r.record.Works? || !r.mark.Works? then (submitted, false)
      else
        var marked := submitted.(prepares := MarkCommitted(d.prepares, r.freezeId));
        if r.event.Throws? || r.close.Throws? then (marked, false)
        else (if r.close.Reports? then marked else marked.(frozen := None), true)
  }

  /** api_collab_document_commit: nothing is rolled back, the room is unfrozen when a write raises. */
  function Committed(d: Doc, r: Request): (Doc, Response)
    requires r.CommitReq?
  {
    if d.status.Submitted? || !r.mayEdit || !Verified(d, r.freezeId, r.revision, r.user) then (d, Refused)
    else
      var written := WriteSubmission(d, r);
      if written.1 then (written.0, Ok200) else (Unfreeze(written.0), Error500)
  }

  /** api_collab_document_unfreeze. */
  function Unfrozen(d: Doc, r: Request): (Doc, Response)
    requires r.UnfreezeReq?
  {
    if d.status.Submitted? || !r.mayEdit then (d, Refused)
    else if !r.cleanup.Works? then (d, Error500)
    else (Unfreeze(Cleanup(d)), Ok200)
  }

  /** api_collab_document_return: unfreezes only a room the status call reports as active. */
  function ReturnedToStudents(d: Doc, r: Request): (Doc, Response)
    requires r.ReturnReq?
  {
    if !r.mayView || !(d.status.Submitted? || d.status.Editing?) then (d, Refused)
    else if r.roomStatus.Throws? then (d, Error500)
    else
      var thawed := if r.roomStatus.Works? then Unfreeze(d) else d;
      if !r.setStatus.Works? then (thawed, Error500)
      else (thawed.(status := Returned), if r.event.Throws? then Error500 else Ok200)
  }

  function Handle(d: Doc, r: Request): (Doc, Response) {
    match r
    case PrepareReq(_, _, _, _, _, _, _, _) => Prepared(d, r)
    case CommitReq(_, _, _, _, _, _, _, _, _) => Committed(d, r)
    case UnfreezeReq(_, _) => Unfrozen(d, r)
    case ReturnReq(_, _, _, _) => ReturnedToStudents(d, r)
    case OpenReq => (OpenRoom(d), Ok200)
  }

  // ---------------------------------------------------------------- when the room is stranded

  /** The prepare handler gets as far as calling freeze on an active room. */
  predicate CallsFreeze(d: Doc, r: Request)
    requires r.PrepareReq?
  {
    !d.status.Submitted? && !d.status.Locked? && r.mayEdit && d.frozen.Some?
  }

  /**
   Requests that strand a frozen room: a prepare whose freeze answer is lost, or
   that raises between freeze and its record, and a return whose status call
   fails on a frozen room.
   */
  predicate Strands(d: Doc, r: Request) {
    match r
    case PrepareReq(_, _, freeze, flush, _, cleanup, create, _) =>
      CallsFreeze(d, r) && (
        if freeze.Lost? || (freeze.Works? && (flush.Throws? || (flush.Works? && !cleanup.Works?))) then !OpenPrepare(d)
        else freeze.Works? && flush.Works? && (create.Throws? || create.Lost?))
    case ReturnReq(mayView, roomStatus, setStatus, _) =>
      mayView && (d.status.Submitted? || d.status.Editing?) && Frozen(d) && !OpenPrepare(d)
      && (roomStatus.Reports? || roomStatus.Lost?) && setStatus.Works?
    case _ => false
  }

  /** Exactly the stranding requests break the rule; every reported failure and every other raise is compensated. */
  lemma RequestKeepsJustifiedExactly(d: Doc, r: Request)
    requires FrozenJustified(d)
    ensures FrozenJustified(Handle(d, r).0) <==> !Strands(d, r)
  {
    match r {
      case PrepareReq(_, _, _, _, _, _, _, _) =>
        var after := Prepared(d, r).0;
        if Prepared(d, r).1.Ok200? {
          assert !after.prepares[|after.prepares| - 1].committed;
        }
      case CommitReq(_, _, _, _, _, _, _, _, _) =>
      case _ =>
    }
  }

  function HandleAll(d: Doc, rs: seq<Request>): Doc {
    if rs == [] then d else Handle(HandleAll(d, rs[..|rs| - 1]), rs[|rs| - 1]).0
  }

  /** Between any two requests of a run without a stranding request, a frozen room is justified. */
  lemma {:induction false} RunKeepsJustified(d: Doc, rs: seq<Request>)
    requires FrozenJustified(d)
    requires forall i :: 0 <= i < |rs| ==> !Strands(HandleAll(d, rs[..i]), rs[i])
    ensures FrozenJustified(HandleAll(d, rs))
  {
    if rs != [] {
      var init := rs[..|rs| - 1];
      assert forall i :: 0 <= i < |init| ==> init[..i] == rs[..i];
      RunKeepsJustified(d, init);
      RequestKeepsJustifiedExactly(HandleAll(d, init), rs[|rs| - 1]);
    }
  }

  // ---------------------------------------------------------------- a commit redeems the latest prepare

  /** A prepare that answers ok with this ticket, an uncommitted prepare record. */
  predicate Issues(d: Doc, r: Request, ticket: Prepare) {
    && r.PrepareReq? && ticket == Prepare(r.freezeId, r.revision, r.user, false)
    && CallsFreeze(d, r) && r.freeze.Works? && r.flush.Works? && r.cleanup.Works? && r.create.Works?
  }

  /**
   A request after which the tickets issued so far are void: a prepare or an unfreeze
   that gets past the clean-up, or a commit that marks its record, whatever they answer.
   */
  predicate Voids(d: Doc, r: Request) {
    match r
    case PrepareReq(_, _, freeze, flush, _, cleanup, _, _) =>
      CallsFreeze(d, r) && freeze.Works? && flush.Works? && cleanup.Works?
    case CommitReq(user, mayEdit, freezeId, revision, update, record, mark, _, _) =>
      && !d.status.Submitted? && mayEdit && Verified(d, freezeId, revision, user)
      && update.Works? && record.Works? && mark.Works?
    case UnfreezeReq(mayEdit, cleanup) => !d.status.Submitted? && mayEdit && cleanup.Works?
    case _ => false
  }

  /** The i-th request issued this ticket and none after it voided it. */
  predicate CurrentSince(d: Doc, rs: seq<Request>, i: nat, ticket: Prepare)
    requires i < |rs|
  {
    && Issues(HandleAll(d, rs[..i]), rs[i], ticket)
    && forall j :: i < j < |rs| ==> !Voids(HandleAll(d, rs[..j]), rs[j])
  }

  predicate Current(d: Doc, rs: seq<Request>, ticket: Prepare) {
    exists i :: 0 <= i < |rs| && CurrentSince(d, rs, i, ticket)
  }

  lemma CommitTracesTicket(d: Doc, r: Request, ticket: Prepare)
    requires r.CommitReq? && |d.prepares| <= 1 && !ticket.committed
    ensures |Handle(d, r).0.prepares| <= 1
    ensures Handle(d, r).0.prepares == [ticket] <==> d.prepares == [ticket] && !Voids(d, r)
  {
    assert |MarkCommitted(d.prepares, r.freezeId)| == |d.prepares|;
    if Voids(d, r) {
      assert FindPrepare(d.prepares, r.freezeId).value == d.prepares[0];
      assert Handle(d, r).0.prepares[0].committed;
    }
  }

  /** One request: the open record afterwards was just issued, or was there before and is not voided. */
  lemma RequestTracesTicket(d: Doc, r: Request, ticket: Prepare)
    requires |d.prepares| <= 1 && !ticket.committed
    ensures |Handle(d, r).0.prepares| <= 1
    ensures Handle(d, r).0.prepares == [ticket] <==>
            Issues(d, r, ticket) || (d.prepares == [ticket] && !Voids(d, r))
  {
    if r.CommitReq? {
      CommitTracesTicket(d, r, ticket);
    } else if r.PrepareReq? {
      var issued := Prepare(r.freezeId, r.revision, r.user, false);
      assert [] + [issued] == [issued];
    }
  }

  /** A ticket is current after one more request if and only if that issued it, or it was current and is not voided. */
  lemma CurrentNext(d: Doc, init: seq<Request>, r: Request, ticket: Prepare)
    ensures Current(d, init + [r], ticket) <==>
            Issues(HandleAll(d, init), r, ticket) || (Current(d, init, ticket) && !Voids(HandleAll(d, init), r))
  {
    var rs := init + [r];
    hide Issues, Voids, HandleAll;
    assert rs[..|init|] == init && rs[|init|] == r;
    assert forall j :: 0 <= j < |init| ==> rs[..j] == init[..j] && rs[j] == init[j];
    assert CurrentSince(d, rs, |init|, ticket) <==> Issues(HandleAll(d, init), r, ticket);
    forall i | 0 <= i < |init|
      ensures CurrentSince(d, rs, i, ticket) <==>
              CurrentSince(d, init, i, ticket) && !Voids(HandleAll(d, init), r)
    {
      if CurrentSince(d, rs, i, ticket) { assert !Voids(HandleAll(d, rs[..|init|]), rs[|init|]); }
    }
  }

  /** At most one record exists at a time, and it is open exactly as the current ticket. */
  lemma {:induction false} RunTracesTickets(d: Doc, rs: seq<Request>, ticket: Prepare)
    requires d.prepares == [] && !ticket.committed
    ensures |HandleAll(d, rs).prepares| <= 1
    ensures HandleAll(d, rs).prepares == [ticket] <==> Current(d, rs, ticket)
  {
    if rs != [] {
      var init, r := rs[..|rs| - 1], rs[|rs| - 1];
      assert rs == init + [r];
      RunTracesTickets(d, init, ticket);
      RequestTracesTicket(HandleAll(d, init), r, ticket);
      CurrentNext(d, init, r, ticket);
    }
  }

  /** What a commit does to a document with at most one record. */
  lemma CommitAlone(d: Doc, r: Request)
    requires r.CommitReq? && |d.prepares| <= 1
    ensures var (after, answer) := Handle(d, r);
            var entitled := && !d.status.Submitted? && r.mayEdit
                            && d.prepares == [Prepare(r.freezeId, r.revision, r.user, false)];
            var marks := r.update.Works? && r.record.Works? && r.mark.Works?;
            && (answer.Ok200? <==> entitled && marks && !r.event.Throws? && !r.close.Throws?)
            && (answer.Refused? <==> !entitled)
            && (!entitled ==> after == d)
            && (entitled ==> after.status == if r.update.Works? then Submitted else d.status)
            && (entitled ==> after.prepares == [Prepare(r.freezeId, r.revision, r.user, marks)])
            && (answer.Error500? ==> !Frozen(after) && (after.frozen.None? <==> d.frozen.None?))
            && (answer.Ok200? ==> after.frozen == if r.close.Reports? then d.frozen else None)
  {
    if d.prepares != [] {
      assert d.prepares == [d.prepares[0]];
      assert MarkCommitted(d.prepares, d.prepares[0].freezeId) == [d.prepares[0].(committed := true)];
    }
  }

  /**
   After any run, a commit succeeds if and only if its own calls do, the document is not
   submitted yet, and its ticket is the current one, drawn by the same user for the same
   revision; it submits the document and spends the ticket.
   */
  lemma CommitRedeemsCurrentTicket(d: Doc, rs: seq<Request>, r: Request)
    requires d.prepares == [] && r.CommitReq?
    ensures var before := HandleAll(d, rs);
            var (after, answer) := Handle(before, r);
            && (answer.Ok200? <==> (
                  && !before.status.Submitted? && r.mayEdit
                  && Current(d, rs, Prepare(r.freezeId, r.revision, r.user, false))
                  && r.update.Works? && r.record.Works? && r.mark.Works? && !r.event.Throws? && !r.close.Throws?))
            && (answer.Ok200? ==> after.status.Submitted? && !OpenPrepare(after))
  {
    RunTracesTickets(d, rs, Prepare(r.freezeId, r.revision, r.user, false));
    CommitAlone(HandleAll(d, rs), r);
  }

  /** When a prepare answers ok, and what it then leaves: a frozen room and its ticket alone. */
  lemma PrepareSucceedsExactly(d: Doc, r: Request)
    requires r.PrepareReq?
    ensures var (after, answer) := Handle(d, r);
            && (answer.Ok200? <==> (
                  && (d.status.Editing? || d.status.Returned?) && r.mayEdit && d.frozen.Some?
                  && r.freeze.Works? && r.flush.Works? && r.cleanup.Works? && r.create.Works?))
            && (answer.Ok200? ==>
                  after == Doc(d.status, Some(true), [Prepare(r.freezeId, r.revision, r.user, false)]))
            && (answer.Refused? <==> d.status.Submitted? || d.status.Locked? || !r.mayEdit)
            && (answer.Refused? ==> after == d)
            && after.status == d.status
  {}

  /** An unfreeze takes a prepare back: the room can be edited again and the ticket is worthless. */
  lemma UnfreezeUndoesPrepare(d: Doc, prepare: Request, commit: Request)
    requires prepare.PrepareReq? && commit.CommitReq? && Handle(d, prepare).1.Ok200?
    ensures var undone := Handle(Handle(d, prepare).0, UnfreezeReq(true, Works));
            && undone == (Doc(d.status, Some(false), []), Ok200)
            && Handle(undone.0, commit) == (undone.0, Refused)
  {}

  /** A working return hands a submitted document back: opened again, it can be prepared and submitted once more. */
  lemma ReturnReopens(d: Doc, user: int, revision: int, freezeId: nat)
    requires d.status.Submitted?
    ensures var returned := Handle(d, ReturnReq(true, Works, Works, Works));
            var again := Handle(returned.0, OpenReq).0;
            && returned.1.Ok200? && returned.0.status.Returned? && !Frozen(returned.0)
            && again == Doc(Returned, Some(false), d.prepares)
            && Handle(again, PrepareReq(user, true, Works, Works, revision, Works, Works, freezeId)).1.Ok200?
  {}

  /** Prepare then commit with every call working submits the document, closes the room and cannot be repeated. */
  lemma PrepareThenCommit(d: Doc, user: int, revision: int, freezeId: nat)
    requires d.frozen.Some? && (d.status.Editing? || d.status.Returned?)
    ensures var prepare := PrepareReq(user, true, Works, Works, revision, Works, Works, freezeId);
            var commit := CommitReq(user, true, freezeId, revision, Works, Works, Works, Works, Works);
            var prepared := Handle(d, prepare);
            var done := Handle(prepared.0, commit);
            && prepared.1.Ok200? && Frozen(prepared.0)
            && done.1.Ok200? && done.0.status.Submitted? && done.0.frozen.None?
            && Handle(done.0, commit) == (done.0, Refused)
  {
    var prepared := Handle(d, PrepareReq(user, true, Works, Works, revision, Works, Works, freezeId)).0;
    assert prepared.prepares == [Prepare(freezeId, revision, user, false)];
  }

  // ---------------------------------------------------------------- where it goes wrong

  const NEW_DOCUMENT := Doc(Editing, None, [])

  lemma HandleNext(d: Doc, init: seq<Request>, r: Request)
    ensures HandleAll(d, init + [r]) == Handle(HandleAll(d, init), r).0
  {
    assert (init + [r])[..|init|] == init;
  }

  /** A new document is opened and a prepare's freeze answer is lost: its room is frozen with nothing to commit. */
  lemma LostFreezeStrands()
    ensures var d := HandleAll(NEW_DOCUMENT, [OpenReq, PrepareReq(1, true, Lost, Works, 0, Works, Works, 0)]);
            d == Doc(Editing, Some(true), []) && !FrozenJustified(d)
  {
    var prepare := PrepareReq(1, true, Lost, Works, 0, Works, Works, 0);
    HandleNext(NEW_DOCUMENT, [], OpenReq);
    HandleNext(NEW_DOCUMENT, [OpenReq], prepare);
    assert [] + [OpenReq] == [OpenReq] && [OpenReq] + [prepare] == [OpenReq, prepare];
  }

  const PREPARE := PrepareReq(1, true, Works, Works, 0, Works, Works, 0)

  /** A commit whose close reports a failure. */
  const COMMIT := CommitReq(1, true, 0, 0, Works, Works, Works, Works, Reports)

  const PREPARED := Doc(Editing, Some(true), [Prepare(0, 0, 1, false)])

  lemma CloseFails()
    ensures HandleAll(NEW_DOCUMENT, [OpenReq, PREPARE]) == PREPARED
    ensures Handle(PREPARED, COMMIT).0 == Doc(Submitted, Some(true), [Prepare(0, 0, 1, true)])
  {
    HandleNext(NEW_DOCUMENT, [], OpenReq);
    HandleNext(NEW_DOCUMENT, [OpenReq], PREPARE);
    assert [] + [OpenReq] == [OpenReq] && [OpenReq] + [PREPARE] == [OpenReq, PREPARE];
    assert HandleAll(NEW_DOCUMENT, [OpenReq]) == Doc(Editing, Some(false), []);
    assert [] + [Prepare(0, 0, 1, false)] == [Prepare(0, 0, 1, false)];
    assert MarkCommitted([Prepare(0, 0, 1, false)], 0) == [Prepare(0, 0, 1, true)];
  }

  /** A submitted document's room outlives a failed close; returning it while the status call fails leaves it frozen. */
  lemma BlindReturnStrands()
    ensures var d := HandleAll(NEW_DOCUMENT, [OpenReq, PREPARE, COMMIT, ReturnReq(true, Reports, Works, Works)]);
            d == Doc(Returned, Some(true), [Prepare(0, 0, 1, true)]) && !FrozenJustified(d)
  {
    var back := ReturnReq(true, Reports, Works, Works);
    var submitted := Doc(Submitted, Some(true), [Prepare(0, 0, 1, true)]);
    CommittedBlindly(submitted);
    HandleNext(NEW_DOCUMENT, [OpenReq, PREPARE, COMMIT], back);
    assert [OpenReq, PREPARE, COMMIT] + [back] == [OpenReq, PREPARE, COMMIT, back];
    assert Handle(submitted, back).0 == submitted.(status := Returned);
  }

  lemma CommittedBlindly(submitted: Doc)
    requires submitted == Doc(Submitted, Some(true), [Prepare(0, 0, 1, true)])
    ensures HandleAll(NEW_DOCUMENT, [OpenReq, PREPARE, COMMIT]) == submitted
  {
    CloseFails();
    HandleNext(NEW_DOCUMENT, [OpenReq, PREPARE], COMMIT);
    assert [OpenReq, PREPARE] + [COMMIT] == [OpenReq, PREPARE, COMMIT];
  }

  // ---------------------------------------------------------------- the handlers

  /** The document row, its prepare rows and its room, as the handlers update them. */
  class DocumentDesk {
    var status: DocStatus
    var frozen: Option<bool>
    var prepares: seq<Prepare>

    ghost function View(): Doc reads this { Doc(status, frozen, prepares) }

    constructor ()
      ensures View() == Doc(Editing, None, [])
    {
      status, frozen, prepares := Editing, None, [];
    }

    method FreezeRoom(call: Call) returns (ok: bool)
      modifies this`frozen
      ensures View() == Freeze(old(View()), call) && ok == FreezeOk(old(View()), call)
    {
      ok := call.Works? && frozen.Some?;
      if (call.Works? || call.Lost?) && frozen.Some? { frozen := Some(true); }
    }

    method UnfreezeRoom()
      modifies this`frozen
      ensures View() == Unfreeze(old(View()))
    {
      if frozen.Some? { frozen := Some(false); }
    }

    method PrepareSubmit(r: Request) returns (response: Response)
      requires r.PrepareReq?
      modifies this
      ensures (View(), response) == Prepared(old(View()), r)
    {
      if status.Submitted? || status.Locked? || !r.mayEdit { return Refused; }
      var ok := FreezeRoom(r.freeze);
      if !ok || r.flush.Throws? { return Error500; }
      if !r.flush.Works? {
        UnfreezeRoom();
        return Error500;
      }
      if !r.cleanup.Works? { return Error500; }
      prepares := [];
      if r.create.Reports? {
        UnfreezeRoom();
        return Error500;
      }
      if !r.create.Works? { return Error500; }
      prepares := prepares + [Prepare(r.freezeId, r.revision, r.user, false)];
      response := Ok200;
    }

    method WriteRows(r: Request) returns (ok: bool)
      requires r.CommitReq?
      modifies this
      ensures (View(), ok) == WriteSubmission(old(View()), r)
    {
      if !r.update.Works? { return false; }
      status := Submitted;
      if !r.record.Works? || !r.mark.Works? { return false; }
      prepares := MarkCommitted(prepares, r.freezeId);
      if r.event.Throws? || r.close.Throws? { return false; }
      if !r.close.Reports? { frozen := None; }
      ok := true;
    }

    method CommitSubmit(r: Request) returns (response: Response)
      requires r.CommitReq?
      modifies this
      ensures (View(), response) == Committed(old(View()), r)
    {
      if status.Submitted? || !r.mayEdit { return Refused; }
      var prepare := FindPrepare(prepares, r.freezeId);
      if prepare.None? || prepare.value.revision != r.revision || prepare.value.user != r.user
          || prepare.value.committed {
        return Refused;
      }
      var ok := WriteRows(r);
      if ok { return Ok200; }
      UnfreezeRoom();
      response := Error500;
    }

    method UnfreezeSubmit(mayEdit: bool, cleanup: Call) returns (response: Response)
      modifies this
      ensures (View(), response) == Unfrozen(old(View()), UnfreezeReq(mayEdit, cleanup))
    {
      if status.Submitted? || !mayEdit { return Refused; }
      if !cleanup.Works? { return Error500; }
      prepares := [];
      UnfreezeRoom();
      response := Ok200;
    }

    method Return(mayView: bool, roomStatus: Call, setStatus: Call, event: Call) returns (response: Response)
      modifies this
      ensures (View(), response) == ReturnedToStudents(old(View()), ReturnReq(mayView, roomStatus, setStatus, event))
    {
      if !mayView || !(status.Submitted? || status.Editing?) { return Refused; }
      if roomStatus.Throws? { return Error500; }
      if roomStatus.Works? { UnfreezeRoom(); }
      if !setStatus.Works? { return Error500; }
      status := Returned;
      response := if event.Throws? then Error500 else Ok200;
    }
  }
}
