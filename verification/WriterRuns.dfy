/**
 Properties of whole runs of the message writers: gapless numbering,
 equivalence with a serial order, and erasure of retried sends.
 Only application writers take part here (no seeding inserts).
 */
module WriterRuns {
  import opened Tables
  import opened MessageLog

  // ---------------------------------------------------------------- order and numbering

  ghost predicate Ordered(log: seq<Message>) {
    forall i, j :: 0 <= i < j < |log| && log[i].group == log[j].group ==> log[i].sequence < log[j].sequence
  }

  function GroupSize(log: seq<Message>, group: int): nat {
    if log == [] then 0 else
    GroupSize(log[..|log| - 1], group) + if log[|log| - 1].group == group then 1 else 0
  }

  /** The n-th row of every group carries sequence n. */
  predicate Numbered(log: seq<Message>) {
    log == [] ||
    (var m := log[|log| - 1];
     Numbered(log[..|log| - 1]) && m.sequence == GroupSize(log[..|log| - 1], m.group) + 1)
  }

  /** A fallback writer's read is either still the next free place or already lost. */
  ghost predicate ReadsFreshOrLost(s: Server) {
    forall w :: w in s.pending && s.pending[w].Falling? ==> FreshOrLost(s.db.log, s.pending[w])
  }

  ghost predicate FreshOrLost(log: seq<Message>, p: Pending)
    requires p.Falling?
  {
    p.sequence == MaxSequence(log, p.draft.group) + 1 || SequenceTaken(log, p.draft.group, p.sequence)
  }

  ghost predicate AppInv(s: Server) {
    LogInv(s.db) && FallbackReadsPositive(s) && Ordered(s.db.log) && ReadsFreshOrLost(s)
  }

  predicate AppOnly(actions: seq<Action>) { forall a :: a in actions ==> !a.Insert? }

  /** `after` is `before`, or `before` with one row put on top of its group. */
  ghost predicate GrowsOnTop(before: seq<Message>, after: seq<Message>) {
    || after == before
    || (|after| == |before| + 1 && after[..|before|] == before
        && after[|before|].sequence == MaxSequence(before, after[|before|].group) + 1)
  }

  lemma NextSequenceIsMaxPlusOne(db: Db, g: int)
    requires CountersBounded(db) && g in db.counters
    ensures NextSequence(db, g) == MaxSequence(db.log, g) + 1
  {
  }

  lemma SendGrowsOnTop(db: Db, d: Draft)
    requires CountersBounded(db)
    ensures GrowsOnTop(db.log, WriteMessage(db, d).0.log)
  {
    var (after, outcome) := WriteMessage(db, d);
    if outcome.Written? {
      NextSequenceIsMaxPlusOne(db, d.group);
      assert after.log[..|db.log|] == db.log;
    }
  }

  lemma FallbackGrowsOnTop(db: Db, d: Draft, q: nat)
    requires q == MaxSequence(db.log, d.group) + 1 || SequenceTaken(db.log, d.group, q)
    ensures GrowsOnTop(db.log, FallbackWrite(db, d, q).0.log)
  {
    var (after, outcome) := FallbackWrite(db, d, q);
    if outcome.Written? {
      assert after.log[..|db.log|] == db.log;
    }
  }

  lemma PublishGrowsOnTop(db: Db, d: Draft, strategy: bool, asked: Option<int>)
    requires CountersBounded(db)
    ensures GrowsOnTop(db.log, Publish(db, d, strategy, asked).0.log)
  {
    var (after, outcome) := Publish(db, d, strategy, asked);
    if outcome.Written? {
      NextSequenceIsMaxPlusOne(db, d.group);
      assert after.log[..|db.log|] == db.log;
    }
  }

  lemma FinishGrowsOnTop(s: Server, w: int)
    requires CountersBounded(s.db) && ReadsFreshOrLost(s) && w in s.pending
    ensures GrowsOnTop(s.db.log, FinishWrite(s.db, s.pending[w]).0.log)
  {
    hide CountersBounded, WriteMessage, FallbackWrite, GrowsOnTop;
    match s.pending[w]
    case Sending(d) => SendGrowsOnTop(s.db, d);
    case Falling(d, q) =>
      assert FreshOrLost(s.db.log, s.pending[w]);
      FallbackGrowsOnTop(s.db, d, q);
  }

  /** Whatever an application step inserts gets exactly MAX(sequence) + 1, stale reads included. */
  lemma StepGrowsOnTop(s: Server, a: Action)
    requires AppInv(s) && !a.Insert?
    ensures GrowsOnTop(s.db.log, Step(s, a).db.log)
  {
    assert CountersBounded(s.db) && ReadsFreshOrLost(s);
    hide AppInv, CountersBounded, ReadsFreshOrLost, FinishWrite, Publish, MaxSequence;
    match a {
      case Finish(w) => if w in s.pending { FinishGrowsOnTop(s, w); }
      case PublishStep(d, strategy, asked) => PublishGrowsOnTop(s.db, d, strategy, asked);
      case _ =>
    }
  }

  lemma OrderedAppend(log: seq<Message>, m: Message)
    requires Ordered(log) && m.sequence == MaxSequence(log, m.group) + 1
    ensures Ordered(log + [m])
  {
    forall i | 0 <= i < |log| && log[i].group == m.group ensures log[i].sequence < m.sequence {
      assert log[i] in log;
    }
  }

  lemma OneReadStaysFreshOrLost(before: seq<Message>, after: seq<Message>, g: int, q: nat)
    requires GrowsOnTop(before, after)
    requires q == MaxSequence(before, g) + 1 || SequenceTaken(before, g, q)
    ensures q == MaxSequence(after, g) + 1 || SequenceTaken(after, g, q)
  {
    if after != before {
      var m := after[|before|];
      assert after == before + [m];
      MaxSequenceAppend(before, m, g);
      if SequenceTaken(before, g, q) {
        var k :| k in before && k.group == g && k.sequence == q;
        assert k in after;
      } else if m.group == g {
        assert m in after;
      }
    }
  }

  /** A fallback writer under way was under way before, or has just read the database, which its read left alone. */
  lemma PendingOrigin(s: Server, a: Action, w: int)
    requires w in PendingAfter(s, a) && PendingAfter(s, a)[w].Falling?
    ensures || (w in s.pending && s.pending[w] == PendingAfter(s, a)[w])
            || (a.FallbackRead? && PendingAfter(s, a)[w] == Falling(a.draft, MaxSequence(s.db.log, a.draft.group) + 1))
  {}

  lemma ReadLeavesDb(s: Server, a: Action)
    requires a.FallbackRead?
    ensures DbAfter(s, a) == s.db
  {}

  lemma StepKeepsReads(s: Server, a: Action)
    requires AppInv(s) && !a.Insert?
    ensures ReadsFreshOrLost(Step(s, a))
  {
    StepGrowsOnTop(s, a);
    var pending, log := PendingAfter(s, a), DbAfter(s, a).log;
    forall w | w in pending && pending[w].Falling?
      ensures FreshOrLost(log, pending[w])
    {
      PendingOrigin(s, a, w);
      if w in s.pending && s.pending[w] == pending[w] {
        assert FreshOrLost(s.db.log, s.pending[w]);
        OneReadStaysFreshOrLost(s.db.log, log, pending[w].draft.group, pending[w].sequence);
      } else {
        ReadLeavesDb(s, a);
      }
    }
  }

  lemma StepKeepsAppInv(s: Server, a: Action)
    requires AppInv(s) && !a.Insert?
    ensures AppInv(Step(s, a))
  {
    hide LogInv, FallbackReadsPositive, ReadsFreshOrLost, DbAfter, PendingAfter, MaxSequence, Ordered;
    StepKeepsLogInv(s, a);
    StepKeepsReads(s, a);
    StepGrowsOnTop(s, a);
    var after := Step(s, a).db.log;
    if after != s.db.log {
      assert after == s.db.log + [after[|s.db.log|]];
      OrderedAppend(s.db.log, after[|s.db.log|]);
    }
  }

  lemma {:induction false} RunKeepsAppInv(s: Server, actions: seq<Action>)
    requires AppInv(s) && AppOnly(actions)
    ensures AppInv(Run(s, actions))
  {
    if actions != [] {
      RunKeepsAppInv(s, actions[..|actions| - 1]);
      StepKeepsAppInv(Run(s, actions[..|actions| - 1]), actions[|actions| - 1]);
    }
  }

  lemma {:induction false} NumberedMax(log: seq<Message>, g: int)
    requires Numbered(log)
    ensures MaxSequence(log, g) == GroupSize(log, g)
  {
    if log != [] {
      NumberedMax(log[..|log| - 1], g);
    }
  }

  lemma GrowthKeepsNumbered(before: seq<Message>, after: seq<Message>)
    requires Numbered(before) && GrowsOnTop(before, after)
    ensures Numbered(after)
  {
    if after != before { NumberedMax(before, after[|before|].group); }
  }

  /** Starting from a numbered log, no interleaving leaves a gap or a repeat in any group's numbers. */
  lemma {:induction false} RunKeepsNumbering(s: Server, actions: seq<Action>)
    requires AppInv(s) && AppOnly(actions) && Numbered(s.db.log)
    ensures Numbered(Run(s, actions).db.log)
  {
    if actions != [] {
      hide AppInv, Step, Numbered, GrowsOnTop;
      var init, a := actions[..|actions| - 1], actions[|actions| - 1];
      var t := Run(s, init);
      RunKeepsNumbering(s, init);
      RunKeepsAppInv(s, init);
      StepGrowsOnTop(t, a);
      GrowthKeepsNumbered(t.db.log, Step(t, a).db.log);
    }
  }

  // ---------------------------------------------------------------- serial equivalence

  /** A request executed without interruption. */
  datatype Tx =
    | SendTx(draft: Draft)
    | FallbackTx(draft: Draft)
    | PublishTx(draft: Draft, strategy: bool, asked: Option<int>)
    | StopTx(scope: Scope)
    | EnterTx(group: int, session: int, discussion: int)

  function FallbackAtomic(db: Db, d: Draft): (Db, Outcome) {
    var found := Lookup(db, d);
    if found.Some? then (db, Duplicate(found.value)) else FallbackWrite(db, d, MaxSequence(db.log, d.group) + 1)
  }

  function Execute(db: Db, tx: Tx): Db {
    match tx
    case SendTx(d) => CreateMessage(db, d).0
    case FallbackTx(d) => FallbackAtomic(db, d).0
    case PublishTx(d, strategy, asked) => Publish(db, d, strategy, asked).0
    case StopTx(scope) => StopObserving(db, scope)
    case EnterTx(group, session, discussion) => EnterStage(db, group, session, discussion)
  }

  function ExecuteAll(db: Db, txs: seq<Tx>): Db {
    if txs == [] then db else Execute(ExecuteAll(db, txs[..|txs| - 1]), txs[|txs| - 1])
  }

  /** The request an action completes, if any. A fallback write whose place was taken meanwhile is lost. */
  function Completed(s: Server, a: Action): seq<Tx> {
    match a
    case SendLookup(w, d) => if w !in s.pending && Lookup(s.db, d).Some? then [SendTx(d)] else []
    case Finish(w) =>
      if w !in s.pending then [] else (
        match s.pending[w]
        case Sending(d) => [SendTx(d)]
        case Falling(d, q) => if SequenceTaken(s.db.log, d.group, q) then [] else [FallbackTx(d)])
    case PublishStep(d, strategy, asked) => [PublishTx(d, strategy, asked)]
    case Stop(scope) => [StopTx(scope)]
    case Enter(group, session, discussion) => [EnterTx(group, session, discussion)]
    case _ => []
  }

  /** Completed requests in the order their last step ran. */
  function SerialOrder(s: Server, actions: seq<Action>): seq<Tx> {
    if actions == [] then [] else
    var init := actions[..|actions| - 1];
    SerialOrder(s, init) + Completed(Run(s, init), actions[|actions| - 1])
  }

  lemma ExecuteOne(db: Db, tx: Tx)
    ensures ExecuteAll(db, [tx]) == Execute(db, tx)
  {
    assert [tx][..0] == [];
    assert ExecuteAll(db, []) == db;
  }

  /** The write transaction on its own ends where the whole send ends: a duplicate is refused by the index. */
  lemma WriteIsCreate(db: Db, d: Draft)
    ensures WriteMessage(db, d).0 == CreateMessage(db, d).0
  {}

  /** A fallback write ends where the uninterrupted one ends, or does nothing when its place is taken. */
  lemma FallbackIsAtomic(db: Db, d: Draft, q: nat)
    requires q == MaxSequence(db.log, d.group) + 1 || SequenceTaken(db.log, d.group, q)
    ensures FallbackWrite(db, d, q).0 == if SequenceTaken(db.log, d.group, q) then db else FallbackAtomic(db, d).0
  {}

  lemma FinishIsSerial(s: Server, w: int)
    requires ReadsFreshOrLost(s) && w in s.pending
    ensures DbAfter(s, Finish(w)) == ExecuteAll(s.db, Completed(s, Finish(w)))
  {
    match s.pending[w]
    case Sending(d) =>
      ExecuteOne(s.db, SendTx(d));
      WriteIsCreate(s.db, d);
    case Falling(d, q) =>
      assert FreshOrLost(s.db.log, s.pending[w]);
      ExecuteOne(s.db, FallbackTx(d));
      FallbackIsAtomic(s.db, d, q);
  }

  lemma StepIsSerial(s: Server, a: Action)
    requires AppInv(s) && !a.Insert?
    ensures Step(s, a).db == ExecuteAll(s.db, Completed(s, a))
  {
    match a
    case SendLookup(w, d) => ExecuteOne(s.db, SendTx(d));
    case Finish(w) => if w in s.pending { FinishIsSerial(s, w); }
    case PublishStep(d, strategy, asked) => ExecuteOne(s.db, PublishTx(d, strategy, asked));
    case Stop(scope) => ExecuteOne(s.db, StopTx(scope));
    case Enter(group, session, discussion) => ExecuteOne(s.db, EnterTx(group, session, discussion));
    case _ =>
  }

  lemma ExecuteAllNext(db: Db, init: seq<Tx>, tx: Tx)
    ensures ExecuteAll(db, init + [tx]) == Execute(ExecuteAll(db, init), tx)
  {
    assert (init + [tx])[..|init|] == init;
  }

  lemma {:induction false} ExecuteAllConcat(db: Db, xs: seq<Tx>, ys: seq<Tx>)
    ensures ExecuteAll(db, xs + ys) == ExecuteAll(ExecuteAll(db, xs), ys)
  {
    if ys == [] {
      assert xs + ys == xs;
    } else {
      var init, y := ys[..|ys| - 1], ys[|ys| - 1];
      assert ys == init + [y] && xs + ys == (xs + init) + [y];
      ExecuteAllConcat(db, xs, init);
      ExecuteAllNext(db, xs + init, y);
      ExecuteAllNext(ExecuteAll(db, xs), init, y);
    }
  }

  /** Every interleaving of two-step writers leaves the database of some uninterrupted serial order. */
  lemma {:induction false} InterleavingIsSerial(s: Server, actions: seq<Action>)
    requires AppInv(s) && AppOnly(actions)
    ensures Run(s, actions).db == ExecuteAll(s.db, SerialOrder(s, actions))
  {
    if actions != [] {
      var init, a := actions[..|actions| - 1], actions[|actions| - 1];
      InterleavingIsSerial(s, init);
      RunKeepsAppInv(s, init);
      StepIsSerial(Run(s, init), a);
      ExecuteAllConcat(s.db, SerialOrder(s, init), Completed(Run(s, init), a));
    }
  }

  // ---------------------------------------------------------------- retry erasure

  type Key = (int, int, string)

  predicate Keyed(tx: Tx) { tx.SendTx? && tx.draft.clientId.Some? }

  function KeyOf(tx: Tx): Key
    requires Keyed(tx)
  {
    (tx.draft.group, tx.draft.user, tx.draft.clientId.value)
  }

  /** Keys of the sends in `txs` whose transaction can go through. */
  function SentKeys(txs: seq<Tx>): set<Key> {
    set tx | tx in txs && Keyed(tx) && tx.draft.scopeResolves :: KeyOf(tx)
  }

  /** `txs[k]` repeats the client id of an earlier send. */
  predicate IsRetry(txs: seq<Tx>, tx: Tx) { Keyed(tx) && KeyOf(tx) in SentKeys(txs) }

  function EraseRetries(txs: seq<Tx>): seq<Tx> {
    if txs == [] then [] else
    var init, tx := txs[..|txs| - 1], txs[|txs| - 1];
    EraseRetries(init) + if IsRetry(init, tx) then [] else [tx]
  }

  ghost predicate Stored(db: Db, key: Key) {
    FindByClientId(db.log, key.0, key.1, Some(key.2)).Some?
  }

  lemma {:induction false} FindPersists(log: seq<Message>, m: Message, g: int, u: int, c: Option<string>)
    requires FindByClientId(log, g, u, c).Some?
    ensures FindByClientId(log + [m], g, u, c).Some?
  {
    assert (log + [m])[..|log|] == log;
  }

  lemma ExecuteKeepsStored(db: Db, tx: Tx, key: Key)
    requires Stored(db, key)
    ensures Stored(Execute(db, tx), key)
  {
    var after := Execute(db, tx);
    if after.log != db.log {
      assert after.log == db.log + [after.log[|db.log|]];
      FindPersists(db.log, after.log[|db.log|], key.0, key.1, Some(key.2));
    }
  }

  lemma SendStoresKey(db: Db, tx: Tx)
    requires Keyed(tx) && tx.draft.scopeResolves && tx.draft.group in db.counters
    ensures Stored(Execute(db, tx), KeyOf(tx))
  {
    var d := tx.draft;
    NextSequenceIsFree(db, d.group);
    if Lookup(db, d).None? {
      var m := CreateMessage(db, d).1.row;
      assert (db.log + [m])[..|db.log|] == db.log;
    }
  }

  lemma ExecuteKeepsGroups(db: Db, tx: Tx)
    ensures Execute(db, tx).counters.Keys == db.counters.Keys
  {
  }

  lemma SentKeysSplit(init: seq<Tx>, tx: Tx, key: Key)
    requires key in SentKeys(init + [tx])
    ensures key in SentKeys(init) || (Keyed(tx) && tx.draft.scopeResolves && KeyOf(tx) == key)
  {}

  lemma {:induction false} SentKeysAreStored(db: Db, txs: seq<Tx>, key: Key)
    requires key in SentKeys(txs) && key.0 in db.counters
    ensures Stored(ExecuteAll(db, txs), key)
  {
    var init, tx := txs[..|txs| - 1], txs[|txs| - 1];
    assert txs == init + [tx];
    SentKeysSplit(init, tx, key);
    ExecuteAllNext(db, init, tx);
    if Keyed(tx) && tx.draft.scopeResolves && KeyOf(tx) == key {
      GroupsNeverChange(db, init);
      SendStoresKey(ExecuteAll(db, init), tx);
    } else {
      SentKeysAreStored(db, init, key);
      ExecuteKeepsStored(ExecuteAll(db, init), tx, key);
    }
  }

  lemma {:induction false} GroupsNeverChange(db: Db, txs: seq<Tx>)
    ensures ExecuteAll(db, txs).counters.Keys == db.counters.Keys
  {
    if txs != [] {
      GroupsNeverChange(db, txs[..|txs| - 1]);
      ExecuteKeepsGroups(ExecuteAll(db, txs[..|txs| - 1]), txs[|txs| - 1]);
    }
  }

  /** A send whose client id is stored changes nothing and returns the one stored row. */
  lemma RetryReturnsStoredRow(db: Db, d: Draft, k: int)
    requires LogInv(db) && 0 <= k < |db.log| && SameKey(db.log[k], d.group, d.user, d.clientId)
    ensures CreateMessage(db, d) == (db, Duplicate(db.log[k]))
  {
    assert db.log[k] in db.log;
    var found := Lookup(db, d).value;
    var i :| 0 <= i < |db.log| && db.log[i] == found;
    assert i == k;
  }

  /** A retry of a send that went before, or into a group that does not exist, leaves the database alone. */
  lemma RetryIsIdle(db: Db, init: seq<Tx>, tx: Tx)
    requires IsRetry(init, tx)
    ensures Execute(ExecuteAll(db, init), tx) == ExecuteAll(db, init)
  {
    GroupsNeverChange(db, init);
    if tx.draft.group in db.counters {
      SentKeysAreStored(db, init, KeyOf(tx));
    }
  }

  /** Taking every retried send out of a serial run does not change the database it ends in. */
  lemma {:induction false} ErasingRetriesChangesNothing(db: Db, txs: seq<Tx>)
    ensures ExecuteAll(db, EraseRetries(txs)) == ExecuteAll(db, txs)
  {
    if txs != [] {
      var init, tx := txs[..|txs| - 1], txs[|txs| - 1];
      assert txs == init + [tx];
      ErasingRetriesChangesNothing(db, init);
      ExecuteAllNext(db, init, tx);
      if IsRetry(init, tx) {
        RetryIsIdle(db, init, tx);
        assert EraseRetries(txs) == EraseRetries(init);
      } else {
        ExecuteAllNext(db, EraseRetries(init), tx);
      }
    }
  }

  /** A concurrent run with retries ends where a serial run without them ends. */
  lemma InterleavingWithRetries(s: Server, actions: seq<Action>)
    requires AppInv(s) && AppOnly(actions)
    ensures Run(s, actions).db == ExecuteAll(s.db, EraseRetries(SerialOrder(s, actions)))
  {
    InterleavingIsSerial(s, actions);
    ErasingRetriesChangesNothing(s.db, SerialOrder(s, actions));
  }
}
