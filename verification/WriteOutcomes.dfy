/**
 What one call of each message writer answers and leaves behind (db.py, the publisher
 and the fallback writer), column by column.
 */
module WriteOutcomes {
  import opened MessageLog
  import opened Observation
  import opened Tables
  import opened WriterRuns

  /** Some stored row carries the draft's group, user and client id. */
  predicate KeyStored(log: seq<Message>, d: Draft) {
    && d.clientId.Some?
    && exists i :: && 0 <= i < |log| && log[i].group == d.group && log[i].user == d.user
                   && log[i].clientId == d.clientId
  }

  /** The columns a row takes over from its draft. */
  predicate CarriesDraft(m: Message, d: Draft) {
    && m.group == d.group && m.user == d.user && m.content == d.content && m.clientId == d.clientId
    && m.session == d.session && m.sessionNo == d.sessionNo && m.task == d.task && m.discussion == d.discussion
    && m.createdAt == d.createdAt
  }

  /** `after` is `before` with this one row stored: a new id, and the group's counter at its sequence. */
  predicate Stores(before: Db, after: Db, m: Message) {
    && after.log == before.log + [m] && m.id == before.nextId && after.nextId == before.nextId + 1
    && after.counters.Keys == before.counters.Keys && m.group in after.counters
    && (forall g :: g in before.counters && g != m.group ==> after.counters[g] == before.counters[g])
    && after.discussions == before.discussions
  }

  /** The sequence exceeds the group's counter and every stored sequence of the group. */
  predicate OnTop(db: Db, m: Message) {
    && m.group in db.counters && m.sequence > db.counters[m.group]
    && forall i :: 0 <= i < |db.log| && db.log[i].group == m.group ==> m.sequence > db.log[i].sequence
  }

  lemma KeyFound(log: seq<Message>, d: Draft)
    ensures FindByClientId(log, d.group, d.user, d.clientId).Some? <==> KeyStored(log, d)
  {
    if KeyStored(log, d) {
      var i :| 0 <= i < |log| && log[i].group == d.group && log[i].user == d.user && log[i].clientId == d.clientId;
      assert log[i] in log && SameKey(log[i], d.group, d.user, d.clientId);
    }
    if FindByClientId(log, d.group, d.user, d.clientId).Some? {
      var m := FindByClientId(log, d.group, d.user, d.clientId).value;
      var i :| 0 <= i < |log| && log[i] == m;
      assert SameKey(log[i], d.group, d.user, d.clientId);
    }
  }

  lemma NextIsOnTop(db: Db, m: Message)
    requires m.group in db.counters && m.sequence == NextSequence(db, m.group)
    ensures OnTop(db, m) && !SequenceTaken(db.log, m.group, m.sequence)
  {
    forall i | 0 <= i < |db.log| && db.log[i].group == m.group ensures m.sequence > db.log[i].sequence {
      assert db.log[i] in db.log;
    }
  }

  /**
   create_message: a duplicate exactly when a row has the client id; otherwise the row is
   stored exactly when the group exists and the scope resolves. The row carries the
   draft; without a role it is a student's, without a sender type it has its role's.
   */
  lemma CreateMessageExactly(db: Db, d: Draft)
    ensures var (after, outcome) := CreateMessage(db, d);
            && (outcome.Duplicate? <==> KeyStored(db.log, d))
            && (outcome.Written? <==> !KeyStored(db.log, d) && d.group in db.counters && d.scopeResolves)
            && (!outcome.Written? ==> after == db)
            && (outcome.Duplicate? ==>
                  && outcome.row in db.log && outcome.row.group == d.group
                  && outcome.row.user == d.user && outcome.row.clientId == d.clientId)
            && (outcome.Written? ==>
                  var m := outcome.row;
                  && Stores(db, after, m) && OnTop(db, m) && after.counters[m.group] == m.sequence
                  && CarriesDraft(m, d)
                  && m.role == (if d.role.Some? then d.role.value else Student)
                  && m.senderType == (if d.senderType.Some? then d.senderType.value else m.role))
  {
    KeyFound(db.log, d);
    if d.group in db.counters { NextIsOnTop(db, RowOf(db.nextId, NextSequence(db, d.group), d, Sender)); }
    hide MaxSequence, FindByClientId, SequenceTaken, Record, NextSequence;
  }

  /** Interrupted or not: look-up, then write with nothing in between, is create_message. */
  lemma SendAlone(s: Server, who: int, d: Draft)
    requires who !in s.pending
    ensures var after := Step(Step(s, SendLookup(who, d)), Finish(who));
            after.db == CreateMessage(s.db, d).0 && after.pending == s.pending
  {
    hide WriteMessage, FindByClientId;
    assert s.pending[who := Sending(d)] - {who} == s.pending;
    assert s.pending - {who} == s.pending;
  }

  /** The publisher goes on: group, scope and, when one is named, the session's own discussion. */
  predicate Publishable(db: Db, d: Draft, asked: Option<int>) {
    && d.group in db.counters && d.scopeResolves
    && (asked.Some? ==>
          && d.session.Some? && (d.group, d.session.value) in db.discussions
          && db.discussions[(d.group, d.session.value)] == asked.value)
  }

  /** What the publisher puts under observation: a strategy's session, when it has a discussion. */
  predicate ObservesExactly(db: Db, d: Draft, strategy: bool, observed: Option<Scope>) {
    if strategy && d.session.Some? && (d.group, d.session.value) in db.discussions
    then observed == Some(Scope(d.group, d.session.value, db.discussions[(d.group, d.session.value)]))
    else observed == None
  }

  /**
   publish_agent_intervention: turned away exactly when group, scope or named discussion
   fail; else a duplicate exactly when a row has the client id; else stored as the
   agent's, on top of the group, under the observation its session calls for.
   */
  lemma PublishExactly(db: Db, d: Draft, strategy: bool, asked: Option<int>)
    ensures var (after, outcome) := Publish(db, d, strategy, asked);
            && (outcome.Aborted? <==> !Publishable(db, d, asked))
            && (outcome.Duplicate? <==> Publishable(db, d, asked) && KeyStored(db.log, d))
            && (!outcome.Written? ==> after == db)
            && (outcome.Written? ==>
                  var m := outcome.row;
                  && Stores(db, after, m) && OnTop(db, m) && after.counters[m.group] == m.sequence
                  && CarriesDraft(m, d) && m.role.Agent? && m.senderType.Agent?
                  && m.writer.Publisher? && ObservesExactly(db, d, strategy, m.writer.observed))
  {
    KeyFound(db.log, d);
    if d.group in db.counters {
      var agent := d.(role := Some(Agent), senderType := Some(Agent));
      NextIsOnTop(db, RowOf(db.nextId, NextSequence(db, d.group), agent, Publisher(ObservedScope(db, d, strategy))));
    }
    hide MaxSequence, FindByClientId, SequenceTaken, Begin, NextSequence;
  }

  /** In every reachable state the scope a publication observes is from then on observed, with no student seen yet. */
  lemma PublicationStartsObservation(s: Server, d: Draft, strategy: bool, asked: Option<int>)
    requires ObservationInv(s)
    ensures var (after, outcome) := Publish(s.db, d, strategy, asked);
            outcome.Written? && outcome.row.writer.observed.Some? ==>
              var scope := outcome.row.writer.observed.value;
              && scope in after.cursors
              && after.cursors[scope] == Cursor(true, None, Some(outcome.row.sequence))
              && forall other :: other in s.db.cursors && other != scope ==>
                   other in after.cursors && after.cursors[other] == s.db.cursors[other]
  {
    var outcome := Publish(s.db, d, strategy, asked).1;
    if outcome.Written? && outcome.row.writer.observed.Some? {
      var scope := outcome.row.writer.observed.value;
      PublishedRow(s.db, d, strategy, asked);
      LastIsBelow(s.db, scope, outcome.row);
      hide Publish, LogInv, LastPublication, FirstStudentAfter, MaxSequence;
    }
  }

  /** Whatever a cursor holds lies below a row on top of the cursor's group. */
  lemma LastIsBelow(db: Db, scope: Scope, m: Message)
    requires Observed(db) && m.group == scope.group && m.sequence > MaxSequence(db.log, scope.group)
    ensures var c := CursorOf(db, scope); c.lastIntervention.Some? ==> c.lastIntervention.value < m.sequence
  {
    var c := CursorOf(db, scope);
    assert CursorAgrees(db.log, scope, c);
    if c.lastIntervention.Some? {
      var x :| x in db.log && PublishedFor(x, scope) && x.sequence == c.lastIntervention.value;
      var i :| 0 <= i < |db.log| && db.log[i] == x;
      assert ObservesOwn(db.discussions, db.log[i]);
    }
  }

  /** The fallback writer: stored exactly when the group exists, its place is free and no row has the client id. */
  lemma FallbackExactly(db: Db, d: Draft, q: nat)
    ensures var (after, outcome) := FallbackWrite(db, d, q);
            && (outcome.Written? <==>
                  && d.group in db.counters && !KeyStored(db.log, d)
                  && forall i :: 0 <= i < |db.log| && db.log[i].group == d.group ==> db.log[i].sequence != q)
            && (!outcome.Written? ==> after == db)
            && (outcome.Written? ==>
                  var m := outcome.row;
                  && Stores(db, after, m) && m.sequence == q && CarriesDraft(m, d)
                  && m.role.Agent? && m.senderType.Agent? && after.cursors == db.cursors
                  && after.counters[m.group] >= q && after.counters[m.group] >= db.counters[m.group])
  {
    KeyFound(db.log, d);
    TakenExactly(db.log, d.group, q);
    if d.group in db.counters {
      var agent := d.(role := Some(Agent), senderType := Some(Agent));
      MaxSequenceAppend(db.log, RowOf(db.nextId, q, agent, Fallback), d.group);
    }
    hide MaxSequence, FindByClientId, SequenceTaken;
  }

  lemma TakenExactly(log: seq<Message>, group: int, q: nat)
    ensures SequenceTaken(log, group, q) <==>
            !forall i :: 0 <= i < |log| && log[i].group == group ==> log[i].sequence != q
  {
    if SequenceTaken(log, group, q) {
      var m :| m in log && m.group == group && m.sequence == q;
      var i :| 0 <= i < |log| && log[i] == m;
    }
    if i :| 0 <= i < |log| && log[i].group == group && log[i].sequence == q {
      assert log[i] in log;
    }
  }

  /** The fallback writer alone: its read and its write together are the uninterrupted request. */
  lemma FallbackAlone(s: Server, who: int, d: Draft)
    requires who !in s.pending
    ensures var after := Step(Step(s, FallbackRead(who, d)), Finish(who));
            after.db == FallbackAtomic(s.db, d).0 && after.pending == s.pending
  {
    hide FallbackWrite, FindByClientId, MaxSequence;
    assert s.pending[who := Falling(d, MaxSequence(s.db.log, d.group) + 1)] - {who} == s.pending;
    assert s.pending - {who} == s.pending;
  }

  /** Ending an observation turns one cursor off and leaves everything else, its sequences included. */
  lemma StopExactly(db: Db, scope: Scope)
    ensures var after := StopObserving(db, scope);
            && after.log == db.log && after.counters == db.counters && after.discussions == db.discussions
            && after.nextId == db.nextId && after.cursors.Keys == db.cursors.Keys
            && (scope in db.cursors ==>
                  && !after.cursors[scope].observing && after.cursors[scope].started == db.cursors[scope].started
                  && after.cursors[scope].lastIntervention == db.cursors[scope].lastIntervention)
            && forall other :: other in db.cursors && other != scope ==> after.cursors[other] == db.cursors[other]
  {}

  /** Entering the discussion stage: the pair has a row afterwards, the one it had or else the new one. */
  lemma EnterExactly(db: Db, group: int, session: int, discussion: int)
    ensures var after := EnterStage(db, group, session, discussion);
            && after.log == db.log && after.counters == db.counters && after.cursors == db.cursors
            && after.nextId == db.nextId && (group, session) in after.discussions
            && after.discussions[(group, session)] ==
               (if (group, session) in db.discussions then db.discussions[(group, session)] else discussion)
            && after.discussions.Keys == db.discussions.Keys + {(group, session)}
            && forall pair :: pair in db.discussions ==> after.discussions[pair] == db.discussions[pair]
  {}
}
