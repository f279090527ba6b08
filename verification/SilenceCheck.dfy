/** Revalidation of a delayed silence check (agent/monitoring_tasks.py) against the live message log. */
module SilenceCheck {
  import opened Tables
  import opened MessageLog
  import opened WriterRuns

  datatype RoomState = Open | Intervening | Closed

  /** What the check was scheduled with; only the sequence is mandatory. */
  datatype Expected = Expected(sequence: nat, at: Option<int>, session: Option<int>, task: Option<int>)

  datatype Verdict = RoomNotFound | Stale | RoomClosed | Detect

  /** ORDER BY sequence DESC LIMIT 1 over the group's rows whose role is student. */
  function LastStudent(log: seq<Message>, group: int): (last: Option<Message>)
    ensures last.Some? ==> last.value in log && last.value.group == group && last.value.role.Student?
    ensures forall m :: m in log && m.group == group && m.role.Student? ==>
        last.Some? && m.sequence <= last.value.sequence
  {
    if log == [] then None else
    var m := log[|log| - 1];
    assert log == log[..|log| - 1] + [m];
    var rest := LastStudent(log[..|log| - 1], group);
    if m.group == group && m.role.Student? && (rest.None? || rest.value.sequence <= m.sequence) then Some(m) else rest
  }

  /** Collects the stale fields and decides; mirrors the order of the tests in check_room_silence. */
  method CheckRoomSilence(db: Db, group: int, room: RoomState, e: Expected) returns (v: Verdict, stale: set<string>)
    ensures v == VerdictOf(db, group, room, e)
    ensures v.Stale? <==> group in db.counters && stale != {}
    ensures var last := LastStudent(db.log, group);
            stale == if group !in db.counters then {} else
              (if last.None? || last.value.sequence != e.sequence then {"actual_sequence"} else {}) +
              (if e.at.None? || (last.Some? && Some(last.value.createdAt) == e.at) then {}
               else {"actual_last_student_message_at"}) +
              (if e.session.None? || (last.Some? && last.value.session == e.session) then {}
               else {"actual_session_id"}) +
              (if e.task.None? || (last.Some? && last.value.task == e.task) then {} else {"actual_task_id"})
  {
    stale := {};
    if group !in db.counters { return RoomNotFound, {}; }
    var current := LastStudent(db.log, group);
    if current.None? || current.value.sequence != e.sequence { stale := stale + {"actual_sequence"}; }
    if e.at.Some? && (current.None? || current.value.createdAt != e.at.value) {
      stale := stale + {"actual_last_student_message_at"};
    }
    if e.session.Some? && (current.None? || current.value.session != e.session) {
      stale := stale + {"actual_session_id"};
    }
    if e.task.Some? && (current.None? || current.value.task != e.task) { stale := stale + {"actual_task_id"}; }
    if stale != {} { return Stale, stale; }
    if room == Closed { return RoomClosed, {}; }
    v := Detect;
  }

  predicate Matches(m: Message, e: Expected) {
    && m.sequence == e.sequence
    && (e.at.Some? ==> e.at.value == m.createdAt)
    && (e.session.Some? ==> e.session == m.session)
    && (e.task.Some? ==> e.task == m.task)
  }

  function VerdictOf(db: Db, group: int, room: RoomState, e: Expected): Verdict {
    if group !in db.counters then RoomNotFound else
    var current := LastStudent(db.log, group);
    if current.None? || !Matches(current.value, e) then Stale
    else if room == Closed then RoomClosed
    else Detect
  }

  predicate IsStudentOf(m: Message, group: int) { m.group == group && m.role.Student? }

  ghost predicate Newest(log: seq<Message>, group: int, m: Message) {
    m in log && IsStudentOf(m, group) && forall o :: o in log && IsStudentOf(o, group) ==> o.sequence <= m.sequence
  }

  lemma LastIsNewest(log: seq<Message>, group: int, m: Message)
    requires Ordered(log)
    ensures Newest(log, group, m) <==> LastStudent(log, group) == Some(m)
  {}

  /** The group's newest student row still has the expected sequence, and the expected time, session and task if any. */
  ghost predicate Unchanged(log: seq<Message>, group: int, e: Expected) {
    exists m :: && Newest(log, group, m) && m.sequence == e.sequence && (e.at.None? || e.at == Some(m.createdAt))
                && (e.session.None? || e.session == m.session) && (e.task.None? || e.task == m.task)
  }

  lemma UnchangedMatches(log: seq<Message>, group: int, e: Expected)
    requires Ordered(log)
    ensures Unchanged(log, group, e) <==> LastStudent(log, group).Some? && Matches(LastStudent(log, group).value, e)
  {
    forall m ensures Newest(log, group, m) <==> LastStudent(log, group) == Some(m) {
      LastIsNewest(log, group, m);
    }
    hide Newest, LastStudent, Ordered;
    var last := LastStudent(log, group);
    if last.Some? && Matches(last.value, e) {
      assert Newest(log, group, last.value);
    }
  }

  /** The verdict, whatever was scheduled: a known room, then an unchanged newest student row, then an open room. */
  lemma VerdictExactly(db: Db, group: int, room: RoomState, e: Expected)
    requires Ordered(db.log)
    ensures var v := VerdictOf(db, group, room, e);
            && (v == RoomNotFound <==> group !in db.counters)
            && (v == Stale <==> group in db.counters && !Unchanged(db.log, group, e))
            && (v == RoomClosed <==> group in db.counters && Unchanged(db.log, group, e) && room == Closed)
            && (v == Detect <==> group in db.counters && Unchanged(db.log, group, e) && room != Closed)
  {
    UnchangedMatches(db.log, group, e);
    hide Unchanged, Matches, LastStudent, Ordered;
  }

  /** A student row of the group sits at position `from` or later. */
  ghost predicate StudentFrom(log: seq<Message>, group: int, from: nat) {
    exists i :: from <= i < |log| && IsStudentOf(log[i], group)
  }

  /**
   A check scheduled for student row k detects exactly while no later student row
   exists and the room is not closed.
   */
  lemma DetectsWhileUnanswered(db: Db, k: nat, room: RoomState, e: Expected)
    requires Ordered(db.log) && RowsBelongToGroups(db) && k < |db.log|
    requires db.log[k].role.Student? && Matches(db.log[k], e)
    ensures var g := db.log[k].group;
            VerdictOf(db, g, room, e) ==
            if StudentFrom(db.log, g, k + 1) then Stale else if room == Closed then RoomClosed else Detect
  {
    var m, g := db.log[k], db.log[k].group;
    assert m in db.log;
    var last := LastStudent(db.log, g).value;
    var i :| 0 <= i < |db.log| && db.log[i] == last;
    assert i >= k;
    if i == k {
      forall j | k < j < |db.log| ensures !IsStudentOf(db.log[j], g) {
        assert db.log[j] in db.log;
      }
    } else {
      assert IsStudentOf(db.log[i], g);
    }
  }

  lemma StepExtendsLog(s: Server, a: Action)
    ensures s.db.log <= Step(s, a).db.log
  {
    match a {
      case Finish(w) =>
      case _ =>
    }
  }

  /** Stored rows never change or move. */
  lemma {:induction false} RunExtendsLog(s: Server, actions: seq<Action>)
    ensures s.db.log <= Run(s, actions).db.log
  {
    if actions != [] {
      RunExtendsLog(s, actions[..|actions| - 1]);
      StepExtendsLog(Run(s, actions[..|actions| - 1]), actions[|actions| - 1]);
    }
  }

  /**
   A check whose snapshot was taken at the newest student message reaches
   detection, after any interleaving of writers, if and only if the room is not
   closed and no student row was appended since; agent and teacher rows do not matter.
   */
  lemma SilenceCheckExact(s: Server, actions: seq<Action>, k: nat, room: RoomState, e: Expected)
    requires AppInv(s) && AppOnly(actions) && k < |s.db.log|
    requires s.db.log[k].role.Student? && Matches(s.db.log[k], e)
    requires !StudentFrom(s.db.log, s.db.log[k].group, k + 1)
    ensures var after := Run(s, actions).db;
            var g := s.db.log[k].group;
            && s.db.log <= after.log
            && (VerdictOf(after, g, room, e) == Detect <==> room != Closed && !StudentFrom(after.log, g, |s.db.log|))
  {
    var after := Run(s, actions).db;
    assert Ordered(after.log) && RowsBelongToGroups(after) by { RunKeepsAppInv(s, actions); }
    RunExtendsLog(s, actions);
    DetectsWhileUnanswered(after, k, room, e);
    OnlyNewRowsCount(s.db.log, after.log, s.db.log[k].group, k);
  }

  lemma OnlyNewRowsCount(before: seq<Message>, after: seq<Message>, group: int, k: nat)
    requires before <= after && k < |before| && !StudentFrom(before, group, k + 1)
    ensures StudentFrom(after, group, k + 1) <==> StudentFrom(after, group, |before|)
  {
    assert forall j :: 0 <= j < |before| ==> after[j] == before[j];
  }
}
