/**
 The group message log: row allocation, client-id deduplication and the
 post-intervention observation cursors, as transactions on an immutable
 snapshot of the database (db.py).
 */
module MessageLog {
  import opened Tables

  datatype Role = Student | Agent | Teacher | System

  /** One row of discussion_assessment_cursors is keyed by its scope. */
  datatype Scope = Scope(group: int, session: int, discussion: int)

  /** Which code path inserted a row; `Publisher` keeps the scope it put under observation. */
  datatype Writer = Sender | Publisher(observed: Option<Scope>) | Fallback | Foreign

  /**
   A write request with its discussion scope already resolved. `role` and
   `senderType` are None when absent or unrecognised, `clientId` is in its stored
   form. `scopeResolves` is false when scope resolution, or another check outside these
   tables, ends the transaction.
   */
  datatype Draft = Draft(
    group: int, user: int, content: string, role: Option<Role>, senderType: Option<Role>,
    clientId: Option<string>, session: Option<int>, sessionNo: int, task: Option<int>,
    discussion: Option<int>, createdAt: int, scopeResolves: bool)

  datatype Message = Message(
    id: nat, sequence: nat, group: int, user: int, content: string, role: Role, senderType: Role,
    clientId: Option<string>, session: Option<int>, sessionNo: int, task: Option<int>,
    discussion: Option<int>, createdAt: int, writer: Writer)

  datatype Cursor = Cursor(observing: bool, started: Option<nat>, lastIntervention: Option<nat>)

  /**
   `log` is in insertion (id) order; `counters` holds groups.last_message_sequence;
   `discussions` maps a group and a session to their discussion row, unique by index.
   */
  datatype Db = Db(log: seq<Message>, nextId: nat, counters: map<int, nat>, cursors: map<Scope, Cursor>,
                   discussions: map<(int, int), int>)

  datatype Outcome = Written(row: Message) | Duplicate(row: Message) | Aborted

  // ---------------------------------------------------------------- queries

  /** COALESCE(MAX(sequence), 0) over one group. */
  function MaxSequence(log: seq<Message>, group: int): (top: nat)
    ensures forall m :: m in log && m.group == group ==> m.sequence <= top
    ensures top == 0 || exists m :: m in log && m.group == group && m.sequence == top
  {
    if log == [] then 0 else
    var m := log[|log| - 1];
    var rest := MaxSequence(log[..|log| - 1], group);
    assert log == log[..|log| - 1] + [m];
    if m.group == group && m.sequence > rest then m.sequence else rest
  }

  function Max(a: nat, b: nat): nat { if a < b then b else a }

  function NextSequence(db: Db, group: int): nat
    requires group in db.counters
  {
    Max(db.counters[group], MaxSequence(db.log, group)) + 1
  }

  predicate SequenceTaken(log: seq<Message>, group: int, sequence: nat) {
    exists m :: m in log && m.group == group && m.sequence == sequence
  }

  predicate SameKey(m: Message, group: int, user: int, clientId: Option<string>) {
    clientId.Some? && m.group == group && m.user == user && m.clientId == clientId
  }

  /** The duplicate lookup: newest row with this (group, user, client id). */
  function FindByClientId(log: seq<Message>, group: int, user: int, clientId: Option<string>): (found: Option<Message>)
    ensures found.Some? ==> found.value in log && SameKey(found.value, group, user, clientId)
    ensures found.None? ==> forall m :: m in log ==> !SameKey(m, group, user, clientId)
  {
    if log == [] then None else
    var m := log[|log| - 1];
    assert log == log[..|log| - 1] + [m];
    if SameKey(m, group, user, clientId) then Some(m) else FindByClientId(log[..|log| - 1], group, user, clientId)
  }

  function Lookup(db: Db, d: Draft): Option<Message> {
    FindByClientId(db.log, d.group, d.user, d.clientId)
  }

  // ---------------------------------------------------------------- cursor updates

  predicate IsStudentRow(m: Message) { m.role.Student? || m.senderType.Student? }

  /** The WHERE clause that picks the cursor rows a student message touches. */
  predicate Touches(scope: Scope, group: int, session: int, discussion: Option<int>) {
    scope.group == group && scope.session == session && (discussion.None? || discussion.value == scope.discussion)
  }

  function RecordOne(c: Cursor, s: nat): Cursor {
    if !c.observing || (c.lastIntervention.Some? && s <= c.lastIntervention.value) then c
    else if c.started.None? || c.started.value > s then c.(started := Some(s))
    else c
  }

  /** record_observation_student_sequence. */
  function Record(cursors: map<Scope, Cursor>, m: Message): map<Scope, Cursor> {
    if m.session.None? then cursors else
    map scope | scope in cursors ::
      if Touches(scope, m.group, m.session.value, m.discussion)
      then RecordOne(cursors[scope], m.sequence) else cursors[scope]
  }

  const NEW_CURSOR := Cursor(false, None, None)

  function BeginOne(c: Cursor, s: nat): Cursor {
    if c.lastIntervention.None? || c.lastIntervention.value < s then Cursor(true, None, Some(s)) else c
  }

  /** Its statements on the row found: INSERT OR IGNORE, then the guarded UPDATE. */
  function Begin(cursors: map<Scope, Cursor>, scope: Scope, s: nat): map<Scope, Cursor> {
    cursors[scope := BeginOne(if scope in cursors then cursors[scope] else NEW_CURSOR, s)]
  }

  /**
   The discussion begin_discussion_observation finds: by id, group and session, or
   without an id by group and session. Either way it is the pair's one row, or none.
   */
  function Picked(discussions: map<(int, int), int>, group: int, session: Option<int>, asked: Option<int>)
    : Option<Scope>
  {
    if session.None? || (group, session.value) !in discussions then None else
    var discussion := discussions[(group, session.value)];
    if asked.Some? && asked.value != discussion then None else Some(Scope(group, session.value, discussion))
  }

  /** begin_discussion_observation as a whole. */
  function BeginObservation(db: Db, group: int, session: Option<int>, asked: Option<int>, s: nat): Db {
    var scope := Picked(db.discussions, group, session, asked);
    if scope.None? then db else db.(cursors := Begin(db.cursors, scope.value, s))
  }

  // ---------------------------------------------------------------- transactions

  function RoleOf(d: Draft): Role { if d.role.Some? then d.role.value else Student }

  function SenderTypeOf(d: Draft): Role { if d.senderType.Some? then d.senderType.value else RoleOf(d) }

  function RowOf(id: nat, sequence: nat, d: Draft, w: Writer): Message {
    Message(id, sequence, d.group, d.user, d.content, RoleOf(d), SenderTypeOf(d), d.clientId,
            d.session, d.sessionNo, d.task, d.discussion, d.createdAt, w)
  }

  /** The group foreign key and both unique indexes let the row in. */
  predicate CanInsert(db: Db, m: Message) {
    && m.group in db.counters
    && !SequenceTaken(db.log, m.group, m.sequence)
    && FindByClientId(db.log, m.group, m.user, m.clientId).None?
  }

  function Append(db: Db, m: Message, counter: nat, cursors: map<Scope, Cursor>): Db {
    db.(log := db.log + [m], nextId := db.nextId + 1, counters := db.counters[m.group := counter], cursors := cursors)
  }

  /** The write transaction of create_message. Any failure rolls everything back. */
  function WriteMessage(db: Db, d: Draft): (Db, Outcome) {
    if d.group !in db.counters then (db, Aborted) else
    var m := RowOf(db.nextId, NextSequence(db, d.group), d, Sender);
    if !d.scopeResolves || !CanInsert(db, m) then (db, Aborted)
    else (Append(db, m, m.sequence, if IsStudentRow(m) then Record(db.cursors, m) else db.cursors), Written(m))
  }

  /** create_message run without interruption: lookup, then write. */
  function CreateMessage(db: Db, d: Draft): (Db, Outcome) {
    var found := Lookup(db, d);
    if found.Some? then (db, Duplicate(found.value)) else WriteMessage(db, d)
  }

  /** The scope the publisher observes: strategy messages without a teacher, when the session has a discussion. */
  function ObservedScope(db: Db, d: Draft, strategy: bool): Option<Scope> {
    if strategy then Picked(db.discussions, d.group, d.session, None) else None
  }

  /**
   publish_agent_intervention: lookup, insert and begin in one transaction. A caller that
   names a discussion (`asked`) is refused unless it is the session's.
   */
  function Publish(db: Db, d: Draft, strategy: bool, asked: Option<int>): (Db, Outcome) {
    if d.group !in db.counters || !d.scopeResolves then (db, Aborted)
    else if asked.Some? && Picked(db.discussions, d.group, d.session, asked).None? then (db, Aborted)
    else if Lookup(db, d).Some? then (db, Duplicate(Lookup(db, d).value)) else
    var observed := ObservedScope(db, d, strategy);
    var m := RowOf(db.nextId, NextSequence(db, d.group), d.(role := Some(Agent), senderType := Some(Agent)),
        Publisher(observed));
    if !CanInsert(db, m) then (db, Aborted)
    else
      var cursors := if observed.Some? then Begin(db.cursors, observed.value, m.sequence) else db.cursors;
      (Append(db, m, m.sequence, cursors), Written(m))
  }

  /** The fallback writer inserts at a MAX(sequence)+1 it read earlier, then lifts the counter. */
  function FallbackWrite(db: Db, d: Draft, sequence: nat): (Db, Outcome) {
    var m := RowOf(db.nextId, sequence, d.(role := Some(Agent), senderType := Some(Agent)), Fallback);
    if !CanInsert(db, m) then (db, Aborted)
    else (Append(db, m, Max(db.counters[d.group], MaxSequence(db.log + [m], d.group)), db.cursors), Written(m))
  }

  /** A row put in by code outside the application (seeding); it skips the counter. */
  function ForeignInsert(db: Db, d: Draft, sequence: nat): (Db, Outcome) {
    var m := RowOf(db.nextId, sequence, d, Foreign);
    if !CanInsert(db, m) then (db, Aborted) else (Append(db, m, db.counters[d.group], db.cursors), Written(m))
  }

  function StopObserving(db: Db, scope: Scope): Db {
    if scope in db.cursors then db.(cursors := db.cursors[scope := db.cursors[scope].(observing := false)]) else db
  }

  /** The first student of a group to reach a session's discussion stage creates its row; it is never replaced. */
  function EnterStage(db: Db, group: int, session: int, discussion: int): Db {
    if (group, session) in db.discussions then db
    else db.(discussions := db.discussions[(group, session) := discussion])
  }

  // ---------------------------------------------------------------- interleaved writers

  /** A writer between its first read and its write. */
  datatype Pending = Sending(draft: Draft) | Falling(draft: Draft, sequence: nat)

  datatype Server = Server(db: Db, pending: map<int, Pending>)

  datatype Action =
    | SendLookup(who: int, draft: Draft)
    | FallbackRead(who: int, draft: Draft)
    | Finish(who: int)
    | Crash(who: int)
    | PublishStep(draft: Draft, strategy: bool, asked: Option<int>)
    | Insert(draft: Draft, sequence: nat)
    | Stop(scope: Scope)
    | Enter(group: int, session: int, discussion: int)

  /** The transaction that ends a two-step write. */
  function FinishWrite(db: Db, p: Pending): (Db, Outcome) {
    match p
    case Sending(d) => WriteMessage(db, d)
    case Falling(d, s) => FallbackWrite(db, d, s)
  }

  /** What an action does to the database; an action whose writer is not ready does nothing. */
  function DbAfter(s: Server, a: Action): Db {
    match a
    case Finish(w) => if w in s.pending then FinishWrite(s.db, s.pending[w]).0 else s.db
    case PublishStep(d, strategy, asked) => Publish(s.db, d, strategy, asked).0
    case Insert(d, sequence) => ForeignInsert(s.db, d, sequence).0
    case Stop(scope) => StopObserving(s.db, scope)
    case Enter(group, session, discussion) => EnterStage(s.db, group, session, discussion)
    case _ => s.db
  }

  function PendingAfter(s: Server, a: Action): map<int, Pending> {
    match a
    case SendLookup(w, d) =>
      if w in s.pending || Lookup(s.db, d).Some? then s.pending else s.pending[w := Sending(d)]
    case FallbackRead(w, d) =>
      if w in s.pending || Lookup(s.db, d).Some? then s.pending
      else s.pending[w := Falling(d, MaxSequence(s.db.log, d.group) + 1)]
    case Finish(w) => s.pending - {w}
    case Crash(w) => s.pending - {w}
    case _ => s.pending
  }

  function Step(s: Server, a: Action): Server { Server(DbAfter(s, a), PendingAfter(s, a)) }

  /** Every action list is one interleaving. */
  function Run(s: Server, actions: seq<Action>): Server {
    if actions == [] then s else Step(Run(s, actions[..|actions| - 1]), actions[|actions| - 1])
  }

  // ---------------------------------------------------------------- log invariant

  ghost predicate IdsAscend(log: seq<Message>, nextId: nat) {
    && nextId >= 1
    && (forall i :: 0 <= i < |log| ==> 1 <= log[i].id < nextId)
    && (forall i, j :: 0 <= i < j < |log| ==> log[i].id < log[j].id)
  }

  ghost predicate SequencesDistinct(log: seq<Message>) {
    forall i, j :: 0 <= i < j < |log| && log[i].group == log[j].group ==> log[i].sequence != log[j].sequence
  }

  ghost predicate ClientIdsDistinct(log: seq<Message>) {
    forall i, j :: 0 <= i < j < |log| ==> !SameKey(log[i], log[j].group, log[j].user, log[j].clientId)
  }

  predicate Allocated(m: Message) { m.writer.Sender? || m.writer.Publisher? }

  /** Every row with an allocated sequence sits above all rows of its group stored before it. */
  ghost predicate AllocatedOnTop(log: seq<Message>) {
    forall i, j :: 0 <= i < j < |log| && log[i].group == log[j].group && Allocated(log[j]) ==>
      log[i].sequence < log[j].sequence
  }

  ghost predicate CountersBounded(db: Db) {
    forall g :: g in db.counters ==> db.counters[g] <= MaxSequence(db.log, g)
  }

  ghost predicate RowsBelongToGroups(db: Db) {
    forall i :: 0 <= i < |db.log| ==> db.log[i].group in db.counters && db.log[i].sequence >= 1
  }

  ghost predicate LogInv(db: Db) {
    && IdsAscend(db.log, db.nextId)
    && SequencesDistinct(db.log)
    && ClientIdsDistinct(db.log)
    && AllocatedOnTop(db.log)
    && CountersBounded(db)
    && RowsBelongToGroups(db)
  }

  ghost predicate FallbackReadsPositive(s: Server) {
    forall w :: w in s.pending && s.pending[w].Falling? ==> s.pending[w].sequence >= 1
  }

  lemma MaxSequenceAppend(log: seq<Message>, m: Message, g: int)
    ensures MaxSequence(log + [m], g) ==
            if m.group == g then Max(MaxSequence(log, g), m.sequence) else MaxSequence(log, g)
  {
    assert (log + [m])[..|log|] == log;
  }

  lemma AppendKeepsIds(log: seq<Message>, nextId: nat, m: Message)
    requires IdsAscend(log, nextId) && m.id == nextId
    ensures IdsAscend(log + [m], nextId + 1)
  {
  }

  lemma AppendKeepsSequences(log: seq<Message>, m: Message)
    requires SequencesDistinct(log) && !SequenceTaken(log, m.group, m.sequence)
    ensures SequencesDistinct(log + [m])
  {
    forall i | 0 <= i < |log| && log[i].group == m.group ensures log[i].sequence != m.sequence {
      assert log[i] in log;
    }
  }

  lemma AppendKeepsClientIds(log: seq<Message>, m: Message)
    requires ClientIdsDistinct(log) && FindByClientId(log, m.group, m.user, m.clientId).None?
    ensures ClientIdsDistinct(log + [m])
  {
    forall i | 0 <= i < |log| ensures !SameKey(log[i], m.group, m.user, m.clientId) {
      assert log[i] in log;
    }
  }

  lemma AppendKeepsAllocatedOnTop(log: seq<Message>, m: Message)
    requires AllocatedOnTop(log)
    requires Allocated(m) ==> m.sequence > MaxSequence(log, m.group)
    ensures AllocatedOnTop(log + [m])
  {
    forall i | 0 <= i < |log| && log[i].group == m.group && Allocated(m) ensures log[i].sequence < m.sequence {
      assert log[i] in log;
    }
  }

  lemma AppendKeepsCounters(db: Db, m: Message, counter: nat, cursors: map<Scope, Cursor>)
    requires CountersBounded(db) && counter <= MaxSequence(db.log + [m], m.group)
    ensures CountersBounded(Append(db, m, counter, cursors))
  {
    forall g | g in db.counters && g != m.group ensures db.counters[g] <= MaxSequence(db.log + [m], g) {
      MaxSequenceAppend(db.log, m, g);
    }
  }

  lemma AppendKeepsGroups(db: Db, m: Message, counter: nat, cursors: map<Scope, Cursor>)
    requires RowsBelongToGroups(db) && m.group in db.counters && m.sequence >= 1
    ensures RowsBelongToGroups(Append(db, m, counter, cursors))
  {
  }

  lemma AppendKeepsLogInv(db: Db, m: Message, counter: nat, cursors: map<Scope, Cursor>)
    requires LogInv(db) && CanInsert(db, m) && m.id == db.nextId && m.sequence >= 1
    requires Allocated(m) ==> m.sequence > MaxSequence(db.log, m.group)
    requires counter <= MaxSequence(db.log + [m], m.group)
    ensures LogInv(Append(db, m, counter, cursors))
  {
    hide IdsAscend, SequencesDistinct, ClientIdsDistinct, AllocatedOnTop, CountersBounded, RowsBelongToGroups;
    hide MaxSequence, SequenceTaken, FindByClientId;
    AppendKeepsIds(db.log, db.nextId, m);
    AppendKeepsSequences(db.log, m);
    AppendKeepsClientIds(db.log, m);
    AppendKeepsAllocatedOnTop(db.log, m);
    AppendKeepsCounters(db, m, counter, cursors);
    AppendKeepsGroups(db, m, counter, cursors);
  }

  /** Allocated sequences are free in every database, whatever other writers inserted. */
  lemma NextSequenceIsFree(db: Db, g: int)
    requires g in db.counters
    ensures !SequenceTaken(db.log, g, NextSequence(db, g))
  {
  }

  lemma CounterBelowTop(db: Db, group: int)
    requires LogInv(db) && group in db.counters
    ensures db.counters[group] <= MaxSequence(db.log, group)
  {}

  lemma WriteMessageKeepsLogInv(db: Db, d: Draft)
    requires LogInv(db)
    ensures LogInv(WriteMessage(db, d).0)
  {
    hide LogInv, MaxSequence, SequenceTaken, FindByClientId;
    var (after, outcome) := WriteMessage(db, d);
    if outcome.Written? {
      MaxSequenceAppend(db.log, outcome.row, d.group);
      AppendKeepsLogInv(db, outcome.row, outcome.row.sequence, after.cursors);
    }
  }

  lemma PublishKeepsLogInv(db: Db, d: Draft, strategy: bool, asked: Option<int>)
    requires LogInv(db)
    ensures LogInv(Publish(db, d, strategy, asked).0)
  {
    hide LogInv, MaxSequence, SequenceTaken, FindByClientId;
    var (after, outcome) := Publish(db, d, strategy, asked);
    if outcome.Written? {
      MaxSequenceAppend(db.log, outcome.row, d.group);
      AppendKeepsLogInv(db, outcome.row, outcome.row.sequence, after.cursors);
    }
  }

  lemma FallbackKeepsLogInv(db: Db, d: Draft, sequence: nat)
    requires LogInv(db) && sequence >= 1
    ensures LogInv(FallbackWrite(db, d, sequence).0)
  {
    hide LogInv, MaxSequence, SequenceTaken, FindByClientId;
    var (after, outcome) := FallbackWrite(db, d, sequence);
    if outcome.Written? {
      CounterBelowTop(db, d.group);
      MaxSequenceAppend(db.log, outcome.row, d.group);
      AppendKeepsLogInv(db, outcome.row, after.counters[d.group], after.cursors);
    }
  }

  lemma ForeignKeepsLogInv(db: Db, d: Draft, sequence: nat)
    requires LogInv(db) && sequence >= 1
    ensures LogInv(ForeignInsert(db, d, sequence).0)
  {
    hide LogInv, MaxSequence, SequenceTaken, FindByClientId;
    var (after, outcome) := ForeignInsert(db, d, sequence);
    if outcome.Written? {
      CounterBelowTop(db, d.group);
      MaxSequenceAppend(db.log, outcome.row, d.group);
      AppendKeepsLogInv(db, outcome.row, db.counters[d.group], after.cursors);
    }
  }

  ghost predicate Positive(a: Action) { a.Insert? ==> a.sequence >= 1 }

  lemma FinishKeepsLogInv(db: Db, p: Pending)
    requires LogInv(db) && (p.Falling? ==> p.sequence >= 1)
    ensures LogInv(FinishWrite(db, p).0)
  {
    match p {
      case Sending(d) => WriteMessageKeepsLogInv(db, d);
      case Falling(d, q) => FallbackKeepsLogInv(db, d, q);
    }
  }

  lemma DbKeepsLogInv(s: Server, a: Action)
    requires LogInv(s.db) && FallbackReadsPositive(s) && Positive(a)
    ensures LogInv(DbAfter(s, a))
  {
    hide LogInv, FinishWrite, Publish, ForeignInsert, StopObserving, EnterStage;
    match a {
      case Finish(w) =>
        if w in s.pending {
          assert s.pending[w].Falling? ==> s.pending[w].sequence >= 1;
          FinishKeepsLogInv(s.db, s.pending[w]);
        }
      case PublishStep(d, strategy, asked) => PublishKeepsLogInv(s.db, d, strategy, asked);
      case Insert(d, q) => ForeignKeepsLogInv(s.db, d, q);
      case Stop(scope) => StopKeepsLogInv(s.db, scope);
      case Enter(group, session, discussion) => EnterKeepsLogInv(s.db, group, session, discussion);
      case _ =>
    }
  }

  lemma StopKeepsLogInv(db: Db, scope: Scope)
    requires LogInv(db)
    ensures LogInv(StopObserving(db, scope))
  {}

  lemma EnterKeepsLogInv(db: Db, group: int, session: int, discussion: int)
    requires LogInv(db)
    ensures LogInv(EnterStage(db, group, session, discussion))
  {}

  lemma ReadsStayPositive(s: Server, a: Action)
    requires FallbackReadsPositive(s)
    ensures forall w :: w in PendingAfter(s, a) && PendingAfter(s, a)[w].Falling? ==>
        PendingAfter(s, a)[w].sequence >= 1
  {}

  lemma StepKeepsLogInv(s: Server, a: Action)
    requires LogInv(s.db) && FallbackReadsPositive(s) && Positive(a)
    ensures LogInv(Step(s, a).db) && FallbackReadsPositive(Step(s, a))
  {
    DbKeepsLogInv(s, a);
    ReadsStayPositive(s, a);
  }

  /**
   Under every interleaving: ids ascend, per-group sequences and per-user client
   ids stay distinct, and every allocated row tops the rows stored before it.
   */
  lemma {:induction false} RunKeepsLogInv(s: Server, actions: seq<Action>)
    requires LogInv(s.db) && FallbackReadsPositive(s)
    requires forall a :: a in actions ==> Positive(a)
    ensures LogInv(Run(s, actions).db) && FallbackReadsPositive(Run(s, actions))
  {
    if actions != [] {
      RunKeepsLogInv(s, actions[..|actions| - 1]);
      StepKeepsLogInv(Run(s, actions[..|actions| - 1]), actions[|actions| - 1]);
    }
  }
}
