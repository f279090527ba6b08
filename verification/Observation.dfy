/**
 The post-intervention observation cursor: in every reachable state it names the
 newest publication for its scope and the first student message after it.
 */
module Observation {
  import opened Tables
  import opened MessageLog

  // ---------------------------------------------------------------- what the log says

  /** A student row create_message wrote into the scope (a row without discussion counts for all of the session's). */
  predicate StudentOf(m: Message, scope: Scope) {
    && m.writer.Sender? && (m.role.Student? || m.senderType.Student?)
    && m.group == scope.group && m.session == Some(scope.session)
    && (m.discussion.None? || m.discussion == Some(scope.discussion))
  }

  predicate PublishedFor(m: Message, scope: Scope) { m.writer == Publisher(Some(scope)) }

  function Earlier(a: Option<nat>, b: nat): Option<nat> {
    if a.None? || b < a.value then Some(b) else a
  }

  /** Sequence of the first student message of `scope` numbered above `after`; None when there is none. */
  function FirstStudentAfter(log: seq<Message>, scope: Scope, after: nat): (first: Option<nat>)
    ensures first.Some? ==>
              exists m :: m in log && StudentOf(m, scope) && m.sequence == first.value && m.sequence > after
    ensures forall m :: m in log && StudentOf(m, scope) && m.sequence > after ==>
        first.Some? && first.value <= m.sequence
  {
    if log == [] then None else
    var m := log[|log| - 1];
    assert log == log[..|log| - 1] + [m];
    var rest := FirstStudentAfter(log[..|log| - 1], scope, after);
    if StudentOf(m, scope) && m.sequence > after then Earlier(rest, m.sequence) else rest
  }

  /** Largest sequence the publisher used for `scope`. */
  function LastPublication(log: seq<Message>, scope: Scope): (last: Option<nat>)
    ensures last.Some? ==> exists m :: m in log && PublishedFor(m, scope) && m.sequence == last.value
    ensures forall m :: m in log && PublishedFor(m, scope) ==> last.Some? && m.sequence <= last.value
  {
    if log == [] then None else
    var m := log[|log| - 1];
    assert log == log[..|log| - 1] + [m];
    var rest := LastPublication(log[..|log| - 1], scope);
    if PublishedFor(m, scope) && (rest.None? || rest.value < m.sequence) then Some(m.sequence) else rest
  }

  // ---------------------------------------------------------------- invariant

  /** The cursor row a scope deserves when `last` is the newest sequence published for it. */
  ghost predicate CursorFits(log: seq<Message>, scope: Scope, last: Option<nat>, c: Cursor) {
    && c.lastIntervention == last
    && (c.observing ==> last.Some? && c.started == FirstStudentAfter(log, scope, last.value))
  }

  ghost predicate CursorAgrees(log: seq<Message>, scope: Scope, c: Cursor) {
    CursorFits(log, scope, LastPublication(log, scope), c)
  }

  function CursorOf(db: Db, scope: Scope): Cursor {
    if scope in db.cursors then db.cursors[scope] else NEW_CURSOR
  }

  ghost predicate CursorsAgree(db: Db) {
    forall scope :: CursorAgrees(db.log, scope, CursorOf(db, scope))
  }

  /** A publication that observes a scope observes the one discussion of its own group and session. */
  predicate ObservesOwn(discussions: map<(int, int), int>, m: Message) {
    m.writer.Publisher? && m.writer.observed.Some? ==>
      m.writer.observed == Picked(discussions, m.group, m.session, None)
  }

  ghost predicate AllObserveOwn(log: seq<Message>, discussions: map<(int, int), int>) {
    forall i :: 0 <= i < |log| ==> ObservesOwn(discussions, log[i])
  }

  /** All of the invariant but the log's own part. */
  ghost predicate Observed(db: Db) {
    CursorsAgree(db) && AllObserveOwn(db.log, db.discussions)
  }

  ghost predicate ObservationInv(s: Server) {
    LogInv(s.db) && FallbackReadsPositive(s) && Observed(s.db)
  }

  lemma FirstStudentAppend(log: seq<Message>, m: Message, scope: Scope, after: nat)
    ensures FirstStudentAfter(log + [m], scope, after) ==
            var rest := FirstStudentAfter(log, scope, after);
            if StudentOf(m, scope) && m.sequence > after then Earlier(rest, m.sequence) else rest
  {
    assert (log + [m])[..|log|] == log;
  }

  lemma LastPublicationAppend(log: seq<Message>, m: Message, scope: Scope)
    ensures LastPublication(log + [m], scope) ==
            var rest := LastPublication(log, scope);
            if PublishedFor(m, scope) && (rest.None? || rest.value < m.sequence) then Some(m.sequence) else rest
  {
    assert (log + [m])[..|log|] == log;
  }

  // ---------------------------------------------------------------- one begin

  function Later(a: Option<nat>, b: nat): Option<nat> {
    if a.None? || a.value < b then Some(b) else a
  }

  /** The begin is refused as old, or no student row of the scope is numbered above it. */
  ghost predicate InTime(log: seq<Message>, scope: Scope, c: Cursor, s: nat) {
    || (c.lastIntervention.Some? && s <= c.lastIntervention.value)
    || forall m :: m in log && StudentOf(m, scope) ==> m.sequence <= s
  }

  lemma NoneAfterExactly(log: seq<Message>, scope: Scope, s: nat)
    ensures FirstStudentAfter(log, scope, s).None? <==> forall m :: m in log && StudentOf(m, scope) ==> m.sequence <= s
  {
    var first := FirstStudentAfter(log, scope, s);
    if first.Some? {
      var m :| m in log && StudentOf(m, scope) && m.sequence == first.value && m.sequence > s;
      assert !(m.sequence <= s);
    }
  }

  /** Whatever the cursor, fresh, inactive or observing: a begin leaves it as its scope deserves exactly if in time. */
  lemma BeginFitsExactly(log: seq<Message>, scope: Scope, last: Option<nat>, c: Cursor, s: nat)
    requires CursorFits(log, scope, last, c)
    ensures CursorFits(log, scope, Later(last, s), BeginOne(c, s)) <==> InTime(log, scope, c, s)
  {
    NoneAfterExactly(log, scope, s);
  }

  lemma TopIsInTime(log: seq<Message>, scope: Scope, c: Cursor, s: nat)
    requires s > MaxSequence(log, scope.group)
    ensures InTime(log, scope, c, s)
  {}

  /** A row no student sent changes no cursor's due value. */
  lemma OtherRowFits(log: seq<Message>, m: Message, scope: Scope, last: Option<nat>, c: Cursor)
    requires CursorFits(log, scope, last, c) && !m.writer.Sender?
    ensures CursorFits(log + [m], scope, last, c)
  {
    if last.Some? { FirstStudentAppend(log, m, scope, last.value); }
  }

  /** A publication on top of the log starts an observation that no student has answered yet. */
  lemma BeginAgrees(log: seq<Message>, m: Message, scope: Scope, c: Cursor)
    requires CursorAgrees(log, scope, c)
    requires PublishedFor(m, scope) && m.sequence > MaxSequence(log, scope.group)
    ensures CursorAgrees(log + [m], scope, BeginOne(c, m.sequence))
  {
    var last := LastPublication(log, scope);
    TopIsInTime(log, scope, c, m.sequence);
    BeginFitsExactly(log, scope, last, c, m.sequence);
    OtherRowFits(log, m, scope, Later(last, m.sequence), BeginOne(c, m.sequence));
    LastPublicationAppend(log, m, scope);
  }

  // ---------------------------------------------------------------- writers

  /** A sent row: what recording does to one cursor is what the longer log demands. */
  lemma RecordOneAgrees(log: seq<Message>, m: Message, scope: Scope, c: Cursor)
    requires CursorAgrees(log, scope, c) && m.writer.Sender?
    ensures CursorAgrees(log + [m], scope, if StudentOf(m, scope) then RecordOne(c, m.sequence) else c)
  {
    LastPublicationAppend(log, m, scope);
    if c.lastIntervention.Some? { FirstStudentAppend(log, m, scope, c.lastIntervention.value); }
  }

  /** Recording a sent row touches exactly the cursors whose scope it is a student row of. */
  lemma RecordedCursor(db: Db, m: Message, scope: Scope)
    requires m.writer.Sender?
    ensures var cursors := if IsStudentRow(m) then Record(db.cursors, m) else db.cursors;
            CursorOf(db.(cursors := cursors), scope) ==
            if StudentOf(m, scope) then RecordOne(CursorOf(db, scope), m.sequence) else CursorOf(db, scope)
  {}

  /** record_observation_student_sequence does to each cursor what the longer log demands. */
  lemma RecordAgrees(db: Db, m: Message, scope: Scope)
    requires CursorAgrees(db.log, scope, CursorOf(db, scope)) && m.writer.Sender?
    ensures var cursors := if IsStudentRow(m) then Record(db.cursors, m) else db.cursors;
            CursorAgrees(db.log + [m], scope, CursorOf(db.(cursors := cursors), scope))
  {
    RecordedCursor(db, m, scope);
    RecordOneAgrees(db.log, m, scope, CursorOf(db, scope));
  }

  /** A row no student sent and nobody put under observation leaves every cursor right. */
  lemma OtherRowAgrees(log: seq<Message>, m: Message, scope: Scope, c: Cursor)
    requires CursorAgrees(log, scope, c) && !m.writer.Sender? && !PublishedFor(m, scope)
    ensures CursorAgrees(log + [m], scope, c)
  {
    LastPublicationAppend(log, m, scope);
    OtherRowFits(log, m, scope, LastPublication(log, scope), c);
  }

  lemma SendKeepsObserved(db: Db, d: Draft)
    requires Observed(db)
    ensures Observed(WriteMessage(db, d).0)
  {
    var (after, outcome) := WriteMessage(db, d);
    if outcome.Written? {
      var m := outcome.row;
      forall scope ensures CursorAgrees(after.log, scope, CursorOf(after, scope)) {
        RecordAgrees(db, m, scope);
        assert CursorOf(after, scope) ==
               CursorOf(db.(cursors := if IsStudentRow(m) then Record(db.cursors, m) else db.cursors), scope);
      }
    }
  }

  /** What publishing writes. */
  lemma PublishedRow(db: Db, d: Draft, strategy: bool, asked: Option<int>)
    requires Publish(db, d, strategy, asked).1.Written?
    ensures var (after, outcome) := Publish(db, d, strategy, asked);
            var m, observed := outcome.row, ObservedScope(db, d, strategy);
            && m.writer == Publisher(observed) && m.group == d.group && m.session == d.session
            && m.sequence > MaxSequence(db.log, m.group)
            && after.log == db.log + [m] && after.discussions == db.discussions
            && after.cursors == (if observed.Some? then Begin(db.cursors, observed.value, m.sequence) else db.cursors)
  {}

  lemma PublishKeepsObserved(db: Db, d: Draft, strategy: bool, asked: Option<int>)
    requires Observed(db)
    ensures Observed(Publish(db, d, strategy, asked).0)
  {
    var published := Publish(db, d, strategy, asked);
    if published.1.Written? {
      var after, m := published.0, published.1.row;
      PublishedRow(db, d, strategy, asked);
      forall scope ensures CursorAgrees(after.log, scope, CursorOf(after, scope)) {
        if PublishedFor(m, scope) {
          BeginAgrees(db.log, m, scope, CursorOf(db, scope));
        } else {
          OtherRowAgrees(db.log, m, scope, CursorOf(db, scope));
        }
      }
    }
  }

  lemma PlainInsertKeepsObserved(db: Db, after: Db, m: Message)
    requires Observed(db) && (m.writer.Fallback? || m.writer.Foreign?)
    requires after.log == db.log + [m] && after.cursors == db.cursors && after.discussions == db.discussions
    ensures Observed(after)
  {
    forall scope ensures CursorAgrees(after.log, scope, CursorOf(after, scope)) {
      OtherRowAgrees(db.log, m, scope, CursorOf(db, scope));
    }
  }

  lemma StopKeepsObserved(db: Db, scope: Scope)
    requires Observed(db)
    ensures Observed(StopObserving(db, scope))
  {
    forall other ensures CursorAgrees(db.log, other, CursorOf(StopObserving(db, scope), other)) {
      assert CursorAgrees(db.log, other, CursorOf(db, other));
    }
  }

  /** A discussion row, once there, is never replaced, so what was observed stays its session's discussion. */
  lemma EnterKeepsObserved(db: Db, group: int, session: int, discussion: int)
    requires Observed(db)
    ensures Observed(EnterStage(db, group, session, discussion))
  {
    var after := EnterStage(db, group, session, discussion);
    forall scope ensures CursorAgrees(after.log, scope, CursorOf(after, scope)) {
      assert CursorOf(after, scope) == CursorOf(db, scope);
    }
    forall i | 0 <= i < |db.log| ensures ObservesOwn(after.discussions, db.log[i]) {
      assert ObservesOwn(db.discussions, db.log[i]);
    }
  }

  lemma FinishKeepsObserved(db: Db, p: Pending)
    requires Observed(db)
    ensures Observed(FinishWrite(db, p).0)
  {
    match p {
      case Sending(d) => SendKeepsObserved(db, d);
      case Falling(d, q) =>
        var (after, outcome) := FallbackWrite(db, d, q);
        if outcome.Written? { PlainInsertKeepsObserved(db, after, outcome.row); }
    }
  }

  lemma DbKeepsObserved(s: Server, a: Action)
    requires Observed(s.db)
    ensures Observed(DbAfter(s, a))
  {
    match a {
      case Finish(w) => if w in s.pending { FinishKeepsObserved(s.db, s.pending[w]); }
      case PublishStep(d, strategy, asked) => PublishKeepsObserved(s.db, d, strategy, asked);
      case Insert(d, q) =>
        var (after, outcome) := ForeignInsert(s.db, d, q);
        if outcome.Written? { PlainInsertKeepsObserved(s.db, after, outcome.row); }
      case Stop(scope) => StopKeepsObserved(s.db, scope);
      case Enter(group, session, discussion) => EnterKeepsObserved(s.db, group, session, discussion);
      case _ =>
    }
  }

  lemma StepKeepsObservation(s: Server, a: Action)
    requires ObservationInv(s) && Positive(a)
    ensures ObservationInv(Step(s, a))
  {
    StepKeepsLogInv(s, a);
    DbKeepsObserved(s, a);
  }

  // ---------------------------------------------------------------- begins after the publication

  /**
   The application's steps, and the begin a pipeline makes once its publication, the row
   at position `at`, is committed: for the row's group and session, with the
   pipeline's own discussion id or none.
   */
  datatype WatchAction = Plain(action: Action) | LateBegin(at: nat, asked: Option<int>)

  predicate NamesPublication(log: seq<Message>, at: nat) {
    at < |log| && log[at].writer.Publisher? && log[at].writer.observed.Some?
  }

  function WatchStep(s: Server, a: WatchAction): Server {
    match a
    case Plain(action) => Step(s, action)
    case LateBegin(at, asked) =>
      if !NamesPublication(s.db.log, at) then s else
      var m := s.db.log[at];
      s.(db := BeginObservation(s.db, m.group, m.session, asked, m.sequence))
  }

  function WatchRun(s: Server, actions: seq<WatchAction>): Server {
    if actions == [] then s else WatchStep(WatchRun(s, actions[..|actions| - 1]), actions[|actions| - 1])
  }

  /** A pipeline names its discussion, so whatever it publishes observes that discussion and may be begun late. */
  lemma PipelinePublicationObserves(db: Db, d: Draft, id: int)
    requires Publish(db, d, true, Some(id)).1.Written?
    ensures d.session.Some?
    ensures Publish(db, d, true, Some(id)).1.row.writer == Publisher(Some(Scope(d.group, d.session.value, id)))
  {}

  /** Whatever discussion it names, a late begin finds the scope its publication observes, or none. */
  lemma LateBeginFindsOwn(db: Db, at: nat, asked: Option<int>)
    requires AllObserveOwn(db.log, db.discussions) && NamesPublication(db.log, at)
    ensures var m := db.log[at];
            var scope := Picked(db.discussions, m.group, m.session, asked);
            scope.Some? ==> PublishedFor(m, scope.value)
  {
    assert ObservesOwn(db.discussions, db.log[at]);
  }

  /** A begin with the sequence of a stored publication of the scope is a refused replay. */
  lemma ReplayIsIdle(db: Db, scope: Scope, m: Message)
    requires CursorsAgree(db) && m in db.log && PublishedFor(m, scope)
    ensures Begin(db.cursors, scope, m.sequence) == db.cursors
  {
    assert CursorAgrees(db.log, scope, CursorOf(db, scope));
    assert scope in db.cursors;
  }

  /** In every reachable state a late begin changes nothing. */
  lemma LateBeginIsReplay(s: Server, at: nat, asked: Option<int>)
    requires Observed(s.db)
    ensures WatchStep(s, LateBegin(at, asked)) == s
  {
    if NamesPublication(s.db.log, at) {
      var m := s.db.log[at];
      LateBeginFindsOwn(s.db, at, asked);
      var scope := Picked(s.db.discussions, m.group, m.session, asked);
      if scope.Some? { ReplayIsIdle(s.db, scope.value, m); }
    }
  }

  /**
   In every reachable state the cursor of every scope holds the largest sequence
   published for it, and while observing also the first student sequence after
   that one (None exactly when no such message exists), late begins included.
   */
  lemma {:induction false} RunKeepsObservation(s: Server, actions: seq<WatchAction>)
    requires ObservationInv(s)
    requires forall i :: 0 <= i < |actions| && actions[i].Plain? ==> Positive(actions[i].action)
    ensures ObservationInv(WatchRun(s, actions))
  {
    if actions != [] {
      var init := actions[..|actions| - 1];
      RunKeepsObservation(s, init);
      match actions[|actions| - 1]
      case Plain(action) => StepKeepsObservation(WatchRun(s, init), action);
      case LateBegin(at, asked) => LateBeginIsReplay(WatchRun(s, init), at, asked);
    }
  }

  function WithoutLate(actions: seq<WatchAction>): seq<Action> {
    if actions == [] then [] else
    var a := actions[|actions| - 1];
    WithoutLate(actions[..|actions| - 1]) + if a.Plain? then [a.action] else []
  }

  /** Leaving the late begins out of a run changes nothing about its end. */
  lemma {:induction false} LateBeginsErase(s: Server, actions: seq<WatchAction>)
    requires ObservationInv(s)
    requires forall i :: 0 <= i < |actions| && actions[i].Plain? ==> Positive(actions[i].action)
    ensures WatchRun(s, actions) == Run(s, WithoutLate(actions))
  {
    if actions != [] {
      var init := actions[..|actions| - 1];
      LateBeginsErase(s, init);
      RunKeepsObservation(s, init);
      match actions[|actions| - 1]
      case Plain(action) =>
        assert (WithoutLate(init) + [action])[..|WithoutLate(init)|] == WithoutLate(init);
      case LateBegin(at, asked) =>
        LateBeginIsReplay(WatchRun(s, init), at, asked);
        assert WithoutLate(actions) == WithoutLate(init);
    }
  }

  // ---------------------------------------------------------------- algebra of one cursor row

  function BeginAll(c: Cursor, xs: seq<nat>): Cursor {
    if xs == [] then c else BeginOne(BeginAll(c, xs[..|xs| - 1]), xs[|xs| - 1])
  }

  function RecordAll(c: Cursor, xs: seq<nat>): Cursor {
    if xs == [] then c else RecordOne(RecordAll(c, xs[..|xs| - 1]), xs[|xs| - 1])
  }

  /** `top` is the largest of `known` and `xs`. */
  ghost predicate IsLargest(known: Option<nat>, xs: seq<nat>, top: Option<nat>) {
    && (top.None? <==> known.None? && xs == [])
    && (top.Some? ==> top == known || top.value in xs)
    && (top.Some? ==> forall x :: x in xs || known == Some(x) ==> x <= top.value)
  }

  /** `low` is the least of `known` and the members of `xs` above `after`. */
  ghost predicate IsLeastAbove(known: Option<nat>, xs: seq<nat>, after: Option<nat>, low: Option<nat>) {
    && (low.Some? ==> low == known || (low.value in xs && (after.None? || low.value > after.value)))
    && (forall x :: known == Some(x) || (x in xs && (after.None? || x > after.value)) ==> low.Some? && low.value <= x)
  }

  /** Begins alone end at the largest sequence; unless one was accepted the row is untouched, inactive rows included. */
  lemma {:induction false} BeginsEndAtLargest(c: Cursor, xs: seq<nat>)
    ensures var after := BeginAll(c, xs);
            && IsLargest(c.lastIntervention, xs, after.lastIntervention)
            && (after.lastIntervention == c.lastIntervention ==> after == c)
            && (after.lastIntervention != c.lastIntervention ==> after == Cursor(true, None, after.lastIntervention))
  {
    if xs != [] {
      var init := xs[..|xs| - 1];
      assert xs == init + [xs[|xs| - 1]];
      BeginsEndAtLargest(c, init);
    }
  }

  lemma LargestUnique(known: Option<nat>, xs: seq<nat>, ys: seq<nat>, a: Option<nat>, b: Option<nat>)
    requires multiset(xs) == multiset(ys) && IsLargest(known, xs, a) && IsLargest(known, ys, b)
    ensures a == b
  {
    assert forall x :: x in xs <==> x in multiset(xs);
    assert forall x :: x in ys <==> x in multiset(ys);
    assert |multiset(xs)| == |xs| && |multiset(ys)| == |ys|;
    assert a.Some? <==> b.Some?;
    if a.Some? {
      assert a.value in ys || known == a;
      assert b.value in xs || known == b;
    }
  }

  /** The order in which publications reach a cursor does not matter. */
  lemma BeginsCommute(c: Cursor, xs: seq<nat>, ys: seq<nat>)
    requires multiset(xs) == multiset(ys)
    ensures BeginAll(c, xs) == BeginAll(c, ys)
  {
    BeginsEndAtLargest(c, xs);
    BeginsEndAtLargest(c, ys);
    LargestUnique(c.lastIntervention, xs, ys, BeginAll(c, xs).lastIntervention, BeginAll(c, ys).lastIntervention);
  }

  /** Between two begins the records keep the least qualifying sequence. */
  lemma {:induction false} RecordsKeepLeast(c: Cursor, xs: seq<nat>)
    requires c.observing
    ensures var after := RecordAll(c, xs);
            after == c.(started := after.started) && IsLeastAbove(c.started, xs, c.lastIntervention, after.started)
  {
    if xs != [] {
      var init := xs[..|xs| - 1];
      assert xs == init + [xs[|xs| - 1]];
      RecordsKeepLeast(c, init);
    }
  }

  lemma RecordsCommute(c: Cursor, xs: seq<nat>, ys: seq<nat>)
    requires multiset(xs) == multiset(ys)
    ensures RecordAll(c, xs) == RecordAll(c, ys)
  {
    if c.observing {
      RecordsKeepLeast(c, xs);
      RecordsKeepLeast(c, ys);
      assert forall x :: x in xs <==> x in multiset(xs);
      assert forall x :: x in ys <==> x in multiset(ys);
    } else {
      InactiveIgnores(c, xs);
      InactiveIgnores(c, ys);
    }
  }

  lemma {:induction false} InactiveIgnores(c: Cursor, xs: seq<nat>)
    requires !c.observing
    ensures RecordAll(c, xs) == c
  {
    if xs != [] {
      InactiveIgnores(c, xs[..|xs| - 1]);
    }
  }
}
