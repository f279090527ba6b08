/** The message tables as db.py and the publisher update them: statement by statement, with rollback. */
module MessageStore {
  import ML = MessageLog
  import opened Tables
  import opened Text

  class Store {
    var log: seq<ML.Message>
    var nextId: nat
    var counters: map<int, nat>
    var cursors: map<ML.Scope, ML.Cursor>
    var discussions: map<(int, int), int>

    function View(): ML.Db reads this { ML.Db(log, nextId, counters, cursors, discussions) }

    constructor (groups: map<int, nat>)
      ensures View() == ML.Db([], 1, groups, map[], map[])
    {
      log, nextId, counters, cursors, discussions := [], 1, groups, map[], map[];
    }

    method Rollback(to: ML.Db)
      modifies this
      ensures View() == to
    {
      log, nextId, counters, cursors := to.log, to.nextId, to.counters, to.cursors;
      discussions := to.discussions;
    }

    /** UPDATE groups SET last_message_sequence = MAX(counter, MAX(sequence)) + 1, then read it back. */
    method AllocateSequence(group: int) returns (sequence: Option<nat>)
      modifies this`counters
      ensures sequence == if group in old(counters) then Some(ML.NextSequence(old(View()), group)) else None
      ensures counters == if sequence.Some? then old(counters)[group := sequence.value] else old(counters)
    {
      if group !in counters { return None; }
      counters := counters[group := ML.Max(counters[group], ML.MaxSequence(log, group)) + 1];
      sequence := Some(counters[group]);
    }

    /** INSERT INTO messages; refused by the foreign key or a unique index. */
    method InsertRow(m: ML.Message) returns (inserted: bool)
      requires m.id == nextId
      modifies this`log, this`nextId
      ensures inserted == ML.CanInsert(old(View()), m)
      ensures inserted ==> log == old(log) + [m] && nextId == old(nextId) + 1
      ensures !inserted ==> log == old(log) && nextId == old(nextId)
    {
      if m.group !in counters { return false; }
      var clash := ML.FindByClientId(log, m.group, m.user, m.clientId);
      if clash.Some? || ML.SequenceTaken(log, m.group, m.sequence) { return false; }
      log, nextId := log + [m], nextId + 1;
      inserted := true;
    }

    method RecordObservation(m: ML.Message)
      modifies this`cursors
      ensures cursors == ML.Record(old(cursors), m)
    {
      if m.session.Some? {
        cursors := map scope | scope in cursors ::
          if ML.Touches(scope, m.group, m.session.value, m.discussion)
          then ML.RecordOne(cursors[scope], m.sequence) else cursors[scope];
      }
    }

    /** INSERT OR IGNORE INTO discussion_assessment_cursors, then the UPDATE guarded by the sequence. */
    method BeginRow(scope: ML.Scope, sequence: nat)
      modifies this`cursors
      ensures cursors == ML.Begin(old(cursors), scope, sequence)
    {
      if scope !in cursors { cursors := cursors[scope := ML.NEW_CURSOR]; }
      var c := cursors[scope];
      if c.lastIntervention.None? || c.lastIntervention.value < sequence {
        cursors := cursors[scope := ML.Cursor(true, None, Some(sequence))];
      }
      assert cursors == ML.Begin(old(cursors), scope, sequence);
    }

    /** begin_discussion_observation: the discussion is looked up by id when one is given, by the pair otherwise. */
    method BeginObservation(group: int, session: Option<int>, asked: Option<int>, sequence: nat)
      modifies this`cursors
      ensures View() == ML.BeginObservation(old(View()), group, session, asked, sequence)
    {
      if session.None? || (group, session.value) !in discussions { return; }
      var discussion := discussions[(group, session.value)];
      if asked.Some? && asked.value != discussion { return; }
      BeginRow(ML.Scope(group, session.value, discussion), sequence);
    }

    /** The INSERT of enter_group_discussion_stage, made only when its SELECT finds no row. */
    method EnterStage(group: int, session: int, discussion: int)
      modifies this`discussions
      ensures View() == ML.EnterStage(old(View()), group, session, discussion)
    {
      if (group, session) !in discussions {
        discussions := discussions[(group, session) := discussion];
      }
    }

    /**
     create_message, given the client id as the browser sent it; the draft's own is
     not used. An aborted write leaves counter, log and cursors as they were.
     */
    method CreateMessage(draft: ML.Draft, rawClientId: string) returns (outcome: ML.Outcome)
      modifies this
      ensures (View(), outcome) == ML.CreateMessage(old(View()), draft.(clientId := NormalizeClientId(rawClientId)))
    {
      var d := draft.(clientId := NormalizeClientId(rawClientId));
      var existing := ML.FindByClientId(log, d.group, d.user, d.clientId);
      if existing.Some? { return ML.Duplicate(existing.value); }
      var saved := View();
      var sequence := AllocateSequence(d.group);
      if sequence.None? || !d.scopeResolves {
        Rollback(saved);
        return ML.Aborted;
      }
      var m := ML.RowOf(nextId, sequence.value, d, ML.Sender);
      var inserted := InsertRow(m);
      if !inserted {
        Rollback(saved);
        return ML.Aborted;
      }
      if m.role.Student? || m.senderType.Student? { RecordObservation(m); }
      outcome := ML.Written(m);
    }

    /** publish_agent_intervention, message part: one transaction from lookup to begin. */
    method PublishAgentMessage(d: ML.Draft, strategy: bool, asked: Option<int>) returns (outcome: ML.Outcome)
      modifies this
      ensures (View(), outcome) == ML.Publish(old(View()), d, strategy, asked)
    {
      if d.group !in counters || !d.scopeResolves { return ML.Aborted; }
      if asked.Some? && ML.Picked(discussions, d.group, d.session, asked).None? { return ML.Aborted; }
      var existing := ML.FindByClientId(log, d.group, d.user, d.clientId);
      if existing.Some? { return ML.Duplicate(existing.value); }
      var saved := View();
      var sequence := AllocateSequence(d.group);
      var observed := ML.ObservedScope(View(), d, strategy);
      var m := ML.RowOf(nextId, sequence.value, d.(role := Some(ML.Agent), senderType := Some(ML.Agent)),
          ML.Publisher(observed));
      var inserted := InsertRow(m);
      if !inserted {
        Rollback(saved);
        return ML.Aborted;
      }
      if strategy { BeginObservation(d.group, d.session, None, sequence.value); }
      outcome := ML.Written(m);
    }
  }
}
