/**
 Queuing help requests (routes/api.py): posting a message or asking for help stores
 a message and then queues at most one request for it, by a lookup and an insert
 that no index protects.
 */
module HelpQueue {
  import opened MessageLog
  import opened Tables

  datatype HelpStatus = Waiting | Working | Completed | Broken

  datatype HelpRow = HelpRow(id: nat, source: Option<nat>, status: HelpStatus)

  datatype Answer = AlreadyQueued(id: nat, open: bool) | RateLimited | Queued(id: nat) | Raised

  datatype Queue = Queue(rows: seq<HelpRow>, nextId: nat)

  /** Newest request for the message. */
  function FindBySource(rows: seq<HelpRow>, source: Option<nat>): (found: Option<HelpRow>)
    ensures found.Some? ==> found.value in rows && source.Some? && found.value.source == source
    ensures found.None? && source.Some? ==> forall i :: 0 <= i < |rows| ==> rows[i].source != source
  {
    if rows == [] || source.None? then None
    else if rows[|rows| - 1].source == source then Some(rows[|rows| - 1])
    else FindBySource(rows[..|rows| - 1], source)
  }

  /** The insert; a request that could not be scheduled is marked broken and the call raises. */
  function InsertRequest(q: Queue, source: Option<nat>, scheduled: bool): Queue {
    Queue(q.rows + [HelpRow(q.nextId, source, if scheduled then Waiting else Broken)], q.nextId + 1)
  }

  /**
   _queue_student_help_request run without interruption; `limited`: the rate limit refuses;
   `resolves`: the scope of the request is found.
   */
  function QueueRequest(q: Queue, source: Option<nat>, limited: bool, resolves: bool, scheduled: bool)
    : (Queue, Answer)
  {
    var existing := FindBySource(q.rows, source);
    if existing.Some?
    then (q, AlreadyQueued(existing.value.id, existing.value.status.Waiting? || existing.value.status.Working?))
    else if limited then (q, RateLimited)
    else if !resolves then (q, Raised)
    else (InsertRequest(q, source, scheduled), if scheduled then Queued(q.nextId) else Raised)
  }

  /** The message has a request. */
  predicate HasRequest(q: Queue, source: Option<nat>) {
    source.Some? && exists i :: 0 <= i < |q.rows| && q.rows[i].source == source
  }

  /** The answer names a stored request of the message, open while it waits or is worked on. */
  ghost predicate NamesRequest(q: Queue, source: Option<nat>, answer: Answer) {
    && answer.AlreadyQueued?
    && exists i :: && 0 <= i < |q.rows| && q.rows[i].source == source && q.rows[i].id == answer.id
                   && (answer.open <==> q.rows[i].status == Waiting || q.rows[i].status == Working)
  }

  lemma FoundExactly(q: Queue, source: Option<nat>)
    ensures FindBySource(q.rows, source).Some? <==> HasRequest(q, source)
    ensures FindBySource(q.rows, source).Some? ==>
              var row := FindBySource(q.rows, source).value;
              NamesRequest(q, source, AlreadyQueued(row.id, row.status.Waiting? || row.status.Working?))
  {
    if FindBySource(q.rows, source).Some? {
      var row := FindBySource(q.rows, source).value;
      var i :| 0 <= i < |q.rows| && q.rows[i] == row;
      assert q.rows[i].source == source && q.rows[i].id == row.id;
    }
  }

  /**
   What a call answers and queues. A message with a request gets no second one: the
   answer names the stored one. Otherwise a refused or unresolved call queues nothing,
   and any other queues exactly one request for the message, broken and raised
   when it could not be scheduled.
   */
  lemma QueueRequestExactly(q: Queue, source: Option<nat>, limited: bool, resolves: bool, scheduled: bool)
    ensures var (after, answer) := QueueRequest(q, source, limited, resolves, scheduled);
            && (HasRequest(q, source) ==> after == q && NamesRequest(q, source, answer))
            && (!HasRequest(q, source) && limited ==> after == q && answer == RateLimited)
            && (!HasRequest(q, source) && !limited && !resolves ==> after == q && answer == Raised)
            && (!HasRequest(q, source) && !limited && resolves ==>
                  && |after.rows| == |q.rows| + 1 && after.rows[..|q.rows|] == q.rows && after.nextId == q.nextId + 1
                  && after.rows[|q.rows|].id == q.nextId && after.rows[|q.rows|].source == source
                  && after.rows[|q.rows|].status == (if scheduled then Waiting else Broken)
                  && answer == if scheduled then Queued(q.nextId) else Raised)
  {
    FoundExactly(q, source);
  }

  class HelpRequests {
    var rows: seq<HelpRow>
    var nextId: nat

    ghost function View(): Queue reads this { Queue(rows, nextId) }

    constructor ()
      ensures View() == Queue([], 1)
    {
      rows, nextId := [], 1;
    }

    method QueueStudentHelpRequest(source: Option<nat>, checkRateLimit: bool, allowed: bool, resolves: bool,
        scheduled: bool)
      returns (answer: Answer)
      modifies this
      ensures (View(), answer) == QueueRequest(old(View()), source, checkRateLimit && !allowed, resolves, scheduled)
    {
      if source.Some? {
        var existing := FindBySource(rows, source);
        if existing.Some? {
          return AlreadyQueued(existing.value.id, existing.value.status.Waiting? || existing.value.status.Working?);
        }
      }
      if checkRateLimit && !allowed { return RateLimited; }
      if !resolves { return Raised; }
      var id := nextId;
      rows, nextId := rows + [HelpRow(id, source, Waiting)], nextId + 1;
      if !scheduled {
        rows := rows[|rows| - 1 := HelpRow(id, source, Broken)];
        assert rows == old(rows) + [HelpRow(id, source, Broken)];
        return Raised;
      }
      return Queued(id);
    }
  }

  // ---------------------------------------------------------------- overlapping calls

  /** A request handler after its message write, and after it looked up the message's request and found none. */
  datatype Caller = Stored(source: nat, limited: bool) | Looked(source: nat)

  datatype Desk = Desk(db: Db, queue: Queue, callers: map<int, Caller>)

  /** `GiveUp`: the handler raises between its statements, for one when the scope does not resolve. */
  datatype Call =
    | PostMessage(who: int, draft: Draft, wantsHelp: bool, limited: bool)
    | AskForHelp(who: int, draft: Draft)
    | LookUp(who: int)
    | InsertNow(who: int, scheduled: bool)
    | GiveUp(who: int)
    | Progress(id: nat, status: HelpStatus)

  function SetStatus(rows: seq<HelpRow>, id: nat, status: HelpStatus): (r: seq<HelpRow>)
    ensures |r| == |rows|
    ensures forall i :: 0 <= i < |r| ==>
        && r[i].id == rows[i].id && r[i].source == rows[i].source
        && r[i].status == if rows[i].id == id then status else rows[i].status
  {
    seq(|rows|, i requires 0 <= i < |rows| => if rows[i].id == id then rows[i].(status := status) else rows[i])
  }

  /** The message write: POST /api/message goes on only for a row it stored itself, POST /api/student/help for any. */
  function StoreMessage(d: Desk, who: int, draft: Draft, onlyNew: bool, wantsHelp: bool, limited: bool): Desk {
    if who in d.callers then d else
      var (db, outcome) := CreateMessage(d.db, draft);
      if wantsHelp && (outcome.Written? || (outcome.Duplicate? && !onlyNew))
      then d.(db := db, callers := d.callers[who := Stored(outcome.row.id, limited)])
      else d.(db := db)
  }

  function LookUpRequest(d: Desk, who: int): Desk {
    if who !in d.callers || !d.callers[who].Stored? then d
    else if d.callers[who].limited || FindBySource(d.queue.rows, Some(d.callers[who].source)).Some?
    then d.(callers := d.callers - {who})
    else d.(callers := d.callers[who := Looked(d.callers[who].source)])
  }

  function InsertFor(d: Desk, who: int, scheduled: bool): Desk {
    if who !in d.callers || !d.callers[who].Looked? then d
    else d.(queue := InsertRequest(d.queue, Some(d.callers[who].source), scheduled), callers := d.callers - {who})
  }

  function DeskStep(d: Desk, c: Call): Desk {
    match c
    case PostMessage(who, draft, wantsHelp, limited) => StoreMessage(d, who, draft, true, wantsHelp, limited)
    case AskForHelp(who, draft) => StoreMessage(d, who, draft, false, true, false)
    case LookUp(who) => LookUpRequest(d, who)
    case InsertNow(who, scheduled) => InsertFor(d, who, scheduled)
    case GiveUp(who) => d.(callers := d.callers - {who})
    case Progress(id, status) => d.(queue := d.queue.(rows := SetStatus(d.queue.rows, id, status)))
  }

  /** A worker's progress shows in its request's status and nowhere else. */
  lemma ProgressSetsStatus(d: Desk, id: nat, status: HelpStatus, i: nat)
    requires i < |d.queue.rows|
    ensures var after := DeskStep(d, Progress(id, status));
            && after.db == d.db && after.callers == d.callers && after.queue.nextId == d.queue.nextId
            && |after.queue.rows| == |d.queue.rows|
            && var (row, was) := (after.queue.rows[i], d.queue.rows[i]);
               row.id == was.id && row.source == was.source && row.status == if was.id == id then status else was.status
  {
    hide CreateMessage, FindBySource;
  }

  function DeskRun(d: Desk, calls: seq<Call>): Desk {
    if calls == [] then d else DeskStep(DeskRun(d, calls[..|calls| - 1]), calls[|calls| - 1])
  }

  /** At most one request per message. */
  ghost predicate OnePerMessage(rows: seq<HelpRow>) {
    forall i, j :: 0 <= i < j < |rows| && rows[i].source.Some? ==> rows[i].source != rows[j].source
  }

  /** No caller about to insert repeats a stored request or another such caller. */
  ghost predicate LookedFresh(d: Desk) {
    && (forall w, i :: w in d.callers && d.callers[w].Looked? && 0 <= i < |d.queue.rows| ==>
          d.queue.rows[i].source != Some(d.callers[w].source))
    && (forall v, w :: v in d.callers && w in d.callers && v != w && d.callers[v].Looked? && d.callers[w].Looked? ==>
          d.callers[v].source != d.callers[w].source)
  }

  ghost predicate QueueInv(d: Desk) { OnePerMessage(d.queue.rows) && LookedFresh(d) }

  /** A look-up that finds no request, while another caller stands between look-up and insert for the same message. */
  predicate Overlaps(d: Desk, c: Call) {
    && c.LookUp? && c.who in d.callers && d.callers[c.who].Stored? && !d.callers[c.who].limited
    && exists w :: w in d.callers && d.callers[w] == Looked(d.callers[c.who].source)
  }

  /** However often and for whatever messages it is called, one call after the other, no message gets two requests. */
  lemma QueueRequestKeepsOne(q: Queue, source: Option<nat>, limited: bool, resolves: bool, scheduled: bool)
    requires OnePerMessage(q.rows)
    ensures OnePerMessage(QueueRequest(q, source, limited, resolves, scheduled).0.rows)
  {
    QueueRequestExactly(q, source, limited, resolves, scheduled);
    var after := QueueRequest(q, source, limited, resolves, scheduled).0.rows;
    if after != q.rows {
      assert forall i :: 0 <= i < |q.rows| ==> after[i] == q.rows[i];
      assert source.Some? ==> forall i :: 0 <= i < |q.rows| ==> q.rows[i].source != source;
    }
  }

  lemma DeskRunNext(d: Desk, init: seq<Call>, c: Call)
    ensures DeskRun(d, init + [c]) == DeskStep(DeskRun(d, init), c)
  {
    assert (init + [c])[..|init|] == init;
  }

  /** A handler past its message write that nobody comes between: look-up and insert are the whole call. */
  lemma CallAlone(d: Desk, who: int, source: nat, limited: bool, resolves: bool, scheduled: bool)
    requires who in d.callers && d.callers[who] == Stored(source, limited)
    ensures DeskStep(DeskStep(d, LookUp(who)), if resolves then InsertNow(who, scheduled) else GiveUp(who)) ==
            Desk(d.db, QueueRequest(d.queue, Some(source), limited, resolves, scheduled).0, d.callers - {who})
  {
    hide FindBySource;
    var looked := d.callers[who := Looked(source)];
    assert looked - {who} == d.callers - {who};
    assert d.callers - {who} - {who} == d.callers - {who};
  }

  /**
   A whole request handled alone: POST /api/message queues for the message it has just
   stored when help is wanted, POST /api/student/help for the message stored by it or
   before; a send turned away queues nothing.
   */
  lemma HandledAlone(d: Desk, who: int, draft: Draft, onlyNew: bool, wantsHelp: bool, limited: bool, resolves: bool,
      scheduled: bool)
    requires who !in d.callers
    ensures var (db, outcome) := CreateMessage(d.db, draft);
            var goesOn := wantsHelp && (outcome.Written? || (outcome.Duplicate? && !onlyNew));
            DeskStep(DeskStep(StoreMessage(d, who, draft, onlyNew, wantsHelp, limited), LookUp(who)),
                if resolves then InsertNow(who, scheduled) else GiveUp(who)) ==
            Desk(db,
                if goesOn then QueueRequest(d.queue, Some(outcome.row.id), limited, resolves, scheduled).0 else d.queue,
                d.callers)
  {
    hide CreateMessage, FindBySource, QueueRequest;
    var outcome := CreateMessage(d.db, draft).1;
    var stored := StoreMessage(d, who, draft, onlyNew, wantsHelp, limited);
    if wantsHelp && (outcome.Written? || (outcome.Duplicate? && !onlyNew)) {
      CallAlone(stored, who, outcome.row.id, limited, resolves, scheduled);
      assert d.callers[who := Stored(outcome.row.id, limited)] - {who} == d.callers;
    } else {
      assert d.callers - {who} == d.callers;
    }
  }

  lemma StoreKeepsInv(d: Desk, who: int, draft: Draft, onlyNew: bool, wantsHelp: bool, limited: bool)
    requires QueueInv(d)
    ensures QueueInv(StoreMessage(d, who, draft, onlyNew, wantsHelp, limited))
  {
    var after := StoreMessage(d, who, draft, onlyNew, wantsHelp, limited);
    assert after.queue == d.queue;
    assert forall w :: w in after.callers && after.callers[w].Looked? ==>
        w in d.callers && d.callers[w] == after.callers[w];
  }

  lemma LookUpKeepsInvExactly(d: Desk, who: int)
    requires QueueInv(d)
    ensures QueueInv(LookUpRequest(d, who)) <==> !Overlaps(d, LookUp(who))
  {
    var after := LookUpRequest(d, who);
    if Overlaps(d, LookUp(who)) {
      var w :| w in d.callers && d.callers[w] == Looked(d.callers[who].source);
      assert FindBySource(d.queue.rows, Some(d.callers[w].source)).None?;
      assert after.callers[who] == after.callers[w];
    } else {
      assert forall w :: w in after.callers && after.callers[w].Looked? && w != who ==>
          d.callers[w] == after.callers[w];
    }
  }

  lemma InsertKeepsInv(d: Desk, who: int, scheduled: bool)
    requires QueueInv(d)
    ensures QueueInv(InsertFor(d, who, scheduled))
  {}

  lemma GiveUpKeepsInv(d: Desk, who: int)
    requires QueueInv(d)
    ensures QueueInv(DeskStep(d, GiveUp(who)))
  {}

  lemma ProgressKeepsInv(d: Desk, id: nat, status: HelpStatus)
    requires QueueInv(d)
    ensures QueueInv(DeskStep(d, Progress(id, status)))
  {}

  /** Exactly the overlapping look-ups endanger the rule; every other call, retried or not, keeps it. */
  lemma StepKeepsQueueInvExactly(d: Desk, c: Call)
    requires QueueInv(d)
    ensures QueueInv(DeskStep(d, c)) <==> !Overlaps(d, c)
  {
    match c {
      case PostMessage(who, draft, wantsHelp, limited) => StoreKeepsInv(d, who, draft, true, wantsHelp, limited);
      case AskForHelp(who, draft) => StoreKeepsInv(d, who, draft, false, true, false);
      case LookUp(who) => LookUpKeepsInvExactly(d, who);
      case InsertNow(who, scheduled) => InsertKeepsInv(d, who, scheduled);
      case GiveUp(who) => GiveUpKeepsInv(d, who);
      case Progress(id, status) => ProgressKeepsInv(d, id, status);
    }
  }

  /** Over any run without overlapping look-ups, each message gets at most one request. */
  lemma {:induction false} RunQueuesOncePerMessage(d: Desk, calls: seq<Call>)
    requires QueueInv(d)
    requires forall i :: 0 <= i < |calls| ==> !Overlaps(DeskRun(d, calls[..i]), calls[i])
    ensures QueueInv(DeskRun(d, calls))
  {
    if calls != [] {
      var init := calls[..|calls| - 1];
      assert forall i :: 0 <= i < |init| ==> init[..i] == calls[..i];
      RunQueuesOncePerMessage(d, init);
      StepKeepsQueueInvExactly(DeskRun(d, init), calls[|calls| - 1]);
    }
  }

  /** The step inserts for a message that got a request since the caller looked. */
  predicate InsertsLate(d: Desk, c: Call) {
    && c.InsertNow? && c.who in d.callers && d.callers[c.who].Looked?
    && FindBySource(d.queue.rows, Some(d.callers[c.who].source)).Some?
  }

  /** A message gets its second request exactly by such an insert; a caller that gives up does no harm. */
  lemma SecondRequestExactly(d: Desk, c: Call)
    requires OnePerMessage(d.queue.rows)
    ensures OnePerMessage(DeskStep(d, c).queue.rows) <==> !InsertsLate(d, c)
  {
    var before, after := d.queue.rows, DeskStep(d, c).queue.rows;
    if InsertsLate(d, c) {
      var found := FindBySource(before, Some(d.callers[c.who].source)).value;
      var i :| 0 <= i < |before| && before[i] == found;
      assert after[i].source == after[|before|].source;
    }
  }

  /** No two handlers are at work on one message. */
  ghost predicate SourcesApart(d: Desk) {
    forall v, w :: v in d.callers && w in d.callers && v != w ==> d.callers[v].source != d.callers[w].source
  }

  /** All sources are stored rows. */
  ghost predicate SourcesStored(d: Desk) {
    IdsAscend(d.db.log, d.db.nextId) && forall w :: w in d.callers ==> d.callers[w].source < d.db.nextId
  }

  lemma FreshRowKeepsApart(d: Desk, who: int, draft: Draft, wantsHelp: bool, limited: bool)
    requires SourcesApart(d) && SourcesStored(d)
    ensures var after := StoreMessage(d, who, draft, true, wantsHelp, limited);
            SourcesApart(after) && SourcesStored(after)
  {
    var outcome := CreateMessage(d.db, draft).1;
    if outcome.Written? { AppendKeepsIds(d.db.log, d.db.nextId, outcome.row); }
  }

  /**
   Through POST /api/message alone nothing ever overlaps, retried and racing sends
   included: only the handler that stored a row goes on to queue for it.
   */
  lemma {:induction false} PostsNeverOverlap(d: Desk, calls: seq<Call>, c: Call)
    requires SourcesApart(d) && SourcesStored(d)
    requires forall i :: 0 <= i < |calls| ==> !calls[i].AskForHelp?
    ensures SourcesApart(DeskRun(d, calls)) && SourcesStored(DeskRun(d, calls))
    ensures !Overlaps(DeskRun(d, calls), c)
  {
    if calls != [] {
      var init, last := calls[..|calls| - 1], calls[|calls| - 1];
      PostsNeverOverlap(d, init, c);
      if last.PostMessage? { FreshRowKeepsApart(DeskRun(d, init), last.who, last.draft, last.wantsHelp, last.limited); }
    }
  }

  // ---------------------------------------------------------------- where it goes wrong

  /** After an overlap, the two inserts put two requests on one message. */
  lemma OverlapDoublesRequest(d: Desk, c: Call, one: int, scheduled: bool)
    requires QueueInv(d) && Overlaps(d, c) && one in d.callers && d.callers[one] == Looked(d.callers[c.who].source)
    ensures one != c.who
    ensures !OnePerMessage(InsertFor(InsertFor(DeskStep(d, c), one, scheduled), c.who, scheduled).queue.rows)
  {
    assert FindBySource(d.queue.rows, Some(d.callers[one].source)).None?;
    var rows := InsertFor(InsertFor(DeskStep(d, c), one, scheduled), c.who, scheduled).queue.rows;
    assert rows[|rows| - 1].source == rows[|rows| - 2].source;
  }

  const DRAFT := Draft(5, 1, "help me", Some(Student), None, Some("a"), Some(3), 1, None, None, 0, true)

  const NEW_DESK := Desk(Db([], 1, map[5 := 0], map[], map[]), Queue([], 1), map[])

  const STORED := Db([RowOf(1, 1, DRAFT, Sender)], 2, map[5 := 1], map[], map[])

  const MESSAGE := RowOf(1, 1, DRAFT, Sender)

  lemma HelpStored()
    ensures CreateMessage(NEW_DESK.db, DRAFT) == (STORED, Written(MESSAGE))
  {
    assert MaxSequence([], 5) == 0 && FindByClientId([], 5, 1, DRAFT.clientId).None?;
    assert [] + [MESSAGE] == [MESSAGE] && map[5 := 0][5 := 1] == map[5 := 1];
    assert Record(map[], MESSAGE) == map[];
  }

  lemma HelpFound()
    ensures CreateMessage(STORED, DRAFT) == (STORED, Duplicate(MESSAGE))
  {
    assert SameKey(MESSAGE, 5, 1, DRAFT.clientId);
    assert FindByClientId([MESSAGE], 5, 1, DRAFT.clientId) == Some(MESSAGE);
  }

  const FIRST := AskForHelp(1, DRAFT)

  const SECOND := AskForHelp(2, DRAFT)

  /** Both calls know their message is stored. */
  const BOTH_STORED := Desk(STORED, NEW_DESK.queue, map[1 := Stored(1, false), 2 := Stored(1, false)])

  const BOTH_LOOKED := Desk(STORED, NEW_DESK.queue, map[1 := Looked(1), 2 := Looked(1)])

  const ONE_STORED := Desk(STORED, NEW_DESK.queue, map[1 := Stored(1, false)])

  lemma OneStored()
    ensures DeskStep(NEW_DESK, FIRST) == ONE_STORED
  {
    HelpStored();
    assert map[][1 := Stored(1, false)] == map[1 := Stored(1, false)];
  }

  lemma TwoStored()
    ensures DeskStep(ONE_STORED, SECOND) == BOTH_STORED
  {
    HelpFound();
    assert map[1 := Stored(1, false)][2 := Stored(1, false)] == map[1 := Stored(1, false), 2 := Stored(1, false)];
  }

  lemma BothStored()
    ensures DeskRun(NEW_DESK, [FIRST, SECOND]) == BOTH_STORED
  {
    OneStored();
    TwoStored();
    DeskRunNext(NEW_DESK, [], FIRST);
    DeskRunNext(NEW_DESK, [FIRST], SECOND);
    assert [] + [FIRST] == [FIRST] && [FIRST] + [SECOND] == [FIRST, SECOND];
  }

  lemma BothLooked()
    ensures LookUpRequest(LookUpRequest(BOTH_STORED, 1), 2) == BOTH_LOOKED
  {
    assert FindBySource(BOTH_STORED.queue.rows, Some(1)).None?;
    assert LookUpRequest(BOTH_STORED, 1) == Desk(STORED, NEW_DESK.queue, map[1 := Looked(1), 2 := Stored(1, false)]);
  }

  lemma BothInserted()
    ensures InsertFor(InsertFor(BOTH_LOOKED, 1, true), 2, true).queue.rows ==
        [HelpRow(1, Some(1), Waiting), HelpRow(2, Some(1), Waiting)]
  {
    assert InsertFor(BOTH_LOOKED, 1, true).queue == Queue([HelpRow(1, Some(1), Waiting)], 2);
  }

  /**
   From an empty desk: a help call and its retry with the same client id both store
   or find message 1, both look up, both insert: message 1 has two requests.
   */
  lemma RetriedHelpDoubles()
    ensures var calls := [FIRST, SECOND, LookUp(1), LookUp(2), InsertNow(1, true), InsertNow(2, true)];
            DeskRun(NEW_DESK, calls).queue.rows ==
            [HelpRow(1, Some(1), Waiting), HelpRow(2, Some(1), Waiting)]
  {
    BothStored();
    BothLooked();
    BothInserted();
    var stored := [FIRST, SECOND];
    DeskRunNext(NEW_DESK, stored, LookUp(1));
    DeskRunNext(NEW_DESK, stored + [LookUp(1)], LookUp(2));
    DeskRunNext(NEW_DESK, stored + [LookUp(1)] + [LookUp(2)], InsertNow(1, true));
    DeskRunNext(NEW_DESK, stored + [LookUp(1)] + [LookUp(2)] + [InsertNow(1, true)], InsertNow(2, true));
    assert stored + [LookUp(1)] + [LookUp(2)] + [InsertNow(1, true)] + [InsertNow(2, true)] ==
           [FIRST, SECOND, LookUp(1), LookUp(2), InsertNow(1, true), InsertNow(2, true)];
  }
}
