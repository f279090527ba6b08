/**
 The single-flight clean-up of state assessment batches (migrations.py): supersede
 all but the oldest active batch per scope, then create the partial unique index.
 */
module AssessmentBatches {
  import opened Tables

  datatype Status = Pending | Running | Superseded | Ended(name: string)

  datatype Scope = Scope(group: nat, session: nat, discussion: nat)

  datatype Batch = Batch(id: nat, scope: Scope, status: Status, completedAt: Option<nat>, updatedAt: nat)

  predicate Active(b: Batch) { b.status.Pending? || b.status.Running? }

  predicate ActiveIn(b: Batch, scope: Scope) { Active(b) && b.scope == scope }

  predicate IdsDistinct(rows: seq<Batch>) {
    forall i, j :: 0 <= i < j < |rows| ==> rows[i].id != rows[j].id
  }

  /** What the partial unique index demands; creating it fails otherwise. */
  predicate OneActive(rows: seq<Batch>) {
    forall i, j :: 0 <= i < j < |rows| && Active(rows[i]) && Active(rows[j]) ==> rows[i].scope != rows[j].scope
  }

  /** MIN(id) over the active rows of one scope. */
  function MinId(rows: seq<Batch>, scope: Scope): (m: Option<nat>)
    ensures m.None? ==> forall i :: 0 <= i < |rows| ==> !ActiveIn(rows[i], scope)
    ensures m.Some? ==> exists i :: 0 <= i < |rows| && ActiveIn(rows[i], scope) && rows[i].id == m.value
    ensures m.Some? ==> forall i :: 0 <= i < |rows| && ActiveIn(rows[i], scope) ==> m.value <= rows[i].id
  {
    if rows == [] then None else
      var init, last := rows[..|rows| - 1], rows[|rows| - 1];
      var m := MinId(init, scope);
      assert forall i :: 0 <= i < |init| ==> init[i] == rows[i];
      if ActiveIn(last, scope) && (m.None? || last.id < m.value) then Some(last.id) else m
  }

  /** The subquery: one MIN(id) per group of active rows. */
  function Oldest(rows: seq<Batch>): set<nat> {
    set i | 0 <= i < |rows| && Active(rows[i]) && MinId(rows, rows[i].scope).Some? :: MinId(rows, rows[i].scope).value
  }

  function SupersedeRow(b: Batch, now: nat): Batch {
    b.(status := Superseded, completedAt := if b.completedAt.Some? then b.completedAt else Some(now), updatedAt := now)
  }

  /** The UPDATE. */
  function Supersede(rows: seq<Batch>, now: nat): (after: seq<Batch>)
    ensures |after| == |rows|
  {
    var oldest := Oldest(rows);
    seq(|rows|, i requires 0 <= i < |rows| =>
      if Active(rows[i]) && rows[i].id !in oldest then SupersedeRow(rows[i], now) else rows[i])
  }

  /** Row i is the smallest active id of its scope. */
  predicate IsOldest(rows: seq<Batch>, i: nat)
    requires i < |rows|
  {
    Active(rows[i]) && forall j :: 0 <= j < |rows| && ActiveIn(rows[j], rows[i].scope) ==> rows[i].id <= rows[j].id
  }

  lemma OldestExactly(rows: seq<Batch>, i: nat)
    requires IdsDistinct(rows) && i < |rows| && Active(rows[i])
    ensures rows[i].id in Oldest(rows) <==> IsOldest(rows, i)
  {
    var m := MinId(rows, rows[i].scope);
    assert ActiveIn(rows[i], rows[i].scope);
    if rows[i].id in Oldest(rows) {
      var k :| 0 <= k < |rows| && Active(rows[k]) && MinId(rows, rows[k].scope) == Some(rows[i].id);
      var j :| 0 <= j < |rows| && ActiveIn(rows[j], rows[k].scope) && rows[j].id == rows[i].id;
      assert j == i;
    }
    if IsOldest(rows, i) {
      var j :| 0 <= j < |rows| && ActiveIn(rows[j], rows[i].scope) && rows[j].id == m.value;
      assert rows[i].id == m.value;
    }
  }

  /**
   Every scope keeps its smallest active batch, every other active batch becomes
   superseded, and rows that were not active are not touched.
   */
  lemma SupersedeExactly(rows: seq<Batch>, now: nat)
    requires IdsDistinct(rows)
    ensures forall i :: 0 <= i < |rows| ==>
              Supersede(rows, now)[i] ==
              if Active(rows[i]) && !IsOldest(rows, i) then SupersedeRow(rows[i], now) else rows[i]
    ensures OneActive(Supersede(rows, now)) && IdsDistinct(Supersede(rows, now))
  {
    forall i | 0 <= i < |rows| && Active(rows[i])
      ensures rows[i].id in Oldest(rows) <==> IsOldest(rows, i)
    {
      OldestExactly(rows, i);
    }
    var after := Supersede(rows, now);
    forall i, j | 0 <= i < j < |rows| && Active(after[i]) && Active(after[j])
      ensures after[i].scope != after[j].scope
    {
      assert IsOldest(rows, i) && IsOldest(rows, j);
      assert rows[i].id != rows[j].id;
    }
  }

  /** Row i is active and some active row of its scope has a smaller id. */
  predicate HasElder(rows: seq<Batch>, i: nat)
    requires i < |rows|
  {
    && (rows[i].status == Pending || rows[i].status == Running)
    && exists j :: && 0 <= j < |rows| && (rows[j].status == Pending || rows[j].status == Running)
                   && rows[j].scope == rows[i].scope && rows[j].id < rows[i].id
  }

  /**
   The update column by column: an active row with an elder becomes superseded, is
   completed now unless it had been, and is stamped; all else stays.
   */
  lemma SupersededColumns(rows: seq<Batch>, now: nat, i: nat)
    requires IdsDistinct(rows) && i < |rows|
    ensures var before, after := rows[i], Supersede(rows, now)[i];
            && after.id == before.id && after.scope == before.scope
            && (HasElder(rows, i) ==>
                  && after.status == Superseded && after.updatedAt == now
                  && after.completedAt == (if before.completedAt == None then Some(now) else before.completedAt))
            && (!HasElder(rows, i) ==> after == before)
  {
    SupersedeExactly(rows, now);
    if Active(rows[i]) && !IsOldest(rows, i) {
      var j :| 0 <= j < |rows| && ActiveIn(rows[j], rows[i].scope) && rows[j].id < rows[i].id;
    }
    if HasElder(rows, i) {
      var j :| && 0 <= j < |rows| && (rows[j].status == Pending || rows[j].status == Running)
               && rows[j].scope == rows[i].scope && rows[j].id < rows[i].id;
      assert ActiveIn(rows[j], rows[i].scope);
    }
  }

  predicate KeptAsOldest(rows: seq<Batch>, now: nat, k: nat)
    requires k < |rows|
  {
    IsOldest(rows, k) && Supersede(rows, now)[k] == rows[k]
  }

  /** No scope with an active batch is left without one: its oldest stays as it is. */
  lemma ScopeKeepsItsOldest(rows: seq<Batch>, now: nat, i: nat)
    requires IdsDistinct(rows) && i < |rows| && Active(rows[i])
    ensures exists k :: 0 <= k < |rows| && KeptAsOldest(rows, now, k) && rows[k].scope == rows[i].scope
  {
    var scope := rows[i].scope;
    var m := MinId(rows, scope);
    assert ActiveIn(rows[i], scope);
    var k :| 0 <= k < |rows| && ActiveIn(rows[k], scope) && rows[k].id == m.value;
    assert rows[k].scope == scope && Active(rows[k]);
    assert IsOldest(rows, k);
    SupersedeExactly(rows, now);
    assert KeptAsOldest(rows, now, k);
  }

  /** The UPDATE changes nothing exactly when the index could already be created. */
  lemma SupersedeIdleExactly(rows: seq<Batch>, now: nat)
    requires IdsDistinct(rows)
    ensures Supersede(rows, now) == rows <==> OneActive(rows)
  {
    SupersedeExactly(rows, now);
    var after := Supersede(rows, now);
    if OneActive(rows) {
      forall i | 0 <= i < |rows| ensures after[i] == rows[i] {
        if Active(rows[i]) {
          assert forall j :: 0 <= j < |rows| && ActiveIn(rows[j], rows[i].scope) ==> j == i;
        }
      }
    }
  }

  // ---------------------------------------------------------------- life under the index

  /** Writes to the table once the index exists. */
  datatype Write =
    | Insert(scope: Scope, status: Status, at: nat)
    | SetStatus(id: nat, status: Status, at: nat)

  datatype Db = Db(rows: seq<Batch>, nextId: nat)

  function Updated(rows: seq<Batch>, id: nat, status: Status, at: nat): (r: seq<Batch>)
    ensures |r| == |rows|
  {
    seq(|rows|, i requires 0 <= i < |rows| =>
      if rows[i].id == id then rows[i].(status := status, updatedAt := at) else rows[i])
  }

  /** The index's test on a row about to be written: another active row has its scope. */
  predicate Clashes(rows: seq<Batch>, b: Batch) {
    Active(b) && exists i :: 0 <= i < |rows| && rows[i].id != b.id && ActiveIn(rows[i], b.scope)
  }

  /** A write the index refuses raises and changes nothing. */
  function Apply(db: Db, w: Write): Db {
    match w
    case Insert(scope, status, at) =>
      var b := Batch(db.nextId, scope, status, None, at);
      if Clashes(db.rows, b) then db else Db(db.rows + [b], db.nextId + 1)
    case SetStatus(id, status, at) =>
      if exists i :: 0 <= i < |db.rows| && db.rows[i].id == id && Clashes(db.rows, db.rows[i].(status := status))
      then db
      else db.(rows := Updated(db.rows, id, status, at))
  }

  function ApplyAll(db: Db, ws: seq<Write>): Db {
    if ws == [] then db else Apply(ApplyAll(db, ws[..|ws| - 1]), ws[|ws| - 1])
  }

  predicate Indexed(db: Db) {
    OneActive(db.rows) && IdsDistinct(db.rows) && forall i :: 0 <= i < |db.rows| ==> db.rows[i].id < db.nextId
  }

  lemma InsertKeepsIndexed(db: Db, scope: Scope, status: Status, at: nat)
    requires Indexed(db)
    ensures Indexed(Apply(db, Insert(scope, status, at)))
  {
    var after := Apply(db, Insert(scope, status, at));
    if after != db && Active(after.rows[|db.rows|]) {
      forall i | 0 <= i < |db.rows| && Active(db.rows[i]) ensures db.rows[i].scope != scope {
        assert !ActiveIn(db.rows[i], scope);
      }
    }
  }

  /** Where the update meets the index: the written row against each other one. */
  lemma UpdatedPair(db: Db, id: nat, status: Status, at: nat, i: nat, j: nat)
    requires Indexed(db) && i < |db.rows| && j < |db.rows| && i != j && db.rows[i].id == id
    requires !Clashes(db.rows, db.rows[i].(status := status))
    ensures var r := Updated(db.rows, id, status, at); Active(r[i]) && Active(r[j]) ==> r[i].scope != r[j].scope
  {
    assert db.rows[j].id != id;
    assert Active(db.rows[j]) ==> ActiveIn(db.rows[j], db.rows[j].scope);
  }

  lemma UpdateKeepsIndexed(db: Db, id: nat, status: Status, at: nat)
    requires Indexed(db)
    ensures Indexed(Apply(db, SetStatus(id, status, at)))
  {
    var after := Apply(db, SetStatus(id, status, at));
    if after != db {
      forall i, j | 0 <= i < j < |db.rows| && Active(after.rows[i]) && Active(after.rows[j])
        ensures after.rows[i].scope != after.rows[j].scope
      {
        if db.rows[i].id == id { UpdatedPair(db, id, status, at, i, j); }
        else if db.rows[j].id == id { UpdatedPair(db, id, status, at, j, i); }
      }
    }
  }

  /** The test on each written row keeps one active batch per scope over all later writes. */
  lemma {:induction false} RunKeepsIndexed(db: Db, ws: seq<Write>)
    requires Indexed(db)
    ensures Indexed(ApplyAll(db, ws))
  {
    if ws != [] {
      RunKeepsIndexed(db, ws[..|ws| - 1]);
      var before := ApplyAll(db, ws[..|ws| - 1]);
      match ws[|ws| - 1]
      case Insert(scope, status, at) => InsertKeepsIndexed(before, scope, status, at);
      case SetStatus(id, status, at) => UpdateKeepsIndexed(before, id, status, at);
    }
  }

  /** And it refuses no more than it must: a write is turned away exactly when it would leave two active batches. */
  lemma RefusedExactly(db: Db, scope: Scope, status: Status, at: nat)
    requires Indexed(db)
    ensures var b := Batch(db.nextId, scope, status, None, at);
            Apply(db, Insert(scope, status, at)) == db <==> !OneActive(db.rows + [b])
  {
    var b := Batch(db.nextId, scope, status, None, at);
    InsertKeepsIndexed(db, scope, status, at);
    if Clashes(db.rows, b) {
      var i :| 0 <= i < |db.rows| && db.rows[i].id != b.id && ActiveIn(db.rows[i], scope);
      assert (db.rows + [b])[i] == db.rows[i] && (db.rows + [b])[|db.rows|] == b;
    }
  }

  /** What an insert that goes through leaves: the one new row, with the columns given. */
  lemma InsertExactly(db: Db, scope: Scope, status: Status, at: nat)
    requires Indexed(db)
    ensures var after := Apply(db, Insert(scope, status, at));
            if OneActive(db.rows + [Batch(db.nextId, scope, status, None, at)])
            then after == Db(db.rows + [Batch(db.nextId, scope, status, None, at)], db.nextId + 1)
            else after == db
  {
    RefusedExactly(db, scope, status, at);
    if Apply(db, Insert(scope, status, at)) != db { InsertKeepsIndexed(db, scope, status, at); }
  }

  /** A status update is refused exactly when it would leave two active batches; else it sets the one row's status. */
  lemma UpdateExactly(db: Db, id: nat, status: Status, at: nat)
    requires Indexed(db)
    ensures var after := Apply(db, SetStatus(id, status, at));
            && |after.rows| == |db.rows| && after.nextId == db.nextId
            && if OneActive(Updated(db.rows, id, status, at))
               then forall i :: 0 <= i < |db.rows| ==>
                 after.rows[i] ==
                 if db.rows[i].id == id then db.rows[i].(status := status, updatedAt := at) else db.rows[i]
               else after == db
  {
    var written := Updated(db.rows, id, status, at);
    if i :| 0 <= i < |db.rows| && db.rows[i].id == id && Clashes(db.rows, db.rows[i].(status := status)) {
      var j :| 0 <= j < |db.rows| && db.rows[j].id != id && ActiveIn(db.rows[j], db.rows[i].scope);
      assert Active(written[i]) && Active(written[j]) && written[i].scope == written[j].scope;
      assert !OneActive(written);
    } else {
      UpdateKeepsIndexed(db, id, status, at);
    }
  }

  /**
   The migration can run at every start: whatever is written after it first ran,
   running it again finds nothing to supersede and the index still holds.
   */
  lemma MigrationRepeats(rows: seq<Batch>, nextId: nat, now: nat, ws: seq<Write>, later: nat)
    requires IdsDistinct(rows) && forall i :: 0 <= i < |rows| ==> rows[i].id < nextId
    ensures var db := ApplyAll(Db(Supersede(rows, now), nextId), ws);
            OneActive(db.rows) && Supersede(db.rows, later) == db.rows
  {
    SupersedeExactly(rows, now);
    var db := Db(Supersede(rows, now), nextId);
    RunKeepsIndexed(db, ws);
    SupersedeIdleExactly(ApplyAll(db, ws).rows, later);
  }

  // ---------------------------------------------------------------- the migration

  class BatchTable {
    var rows: seq<Batch>
    var indexed: bool

    constructor (initial: seq<Batch>)
      ensures rows == initial && !indexed
    {
      rows, indexed := initial, false;
    }

    /** CREATE UNIQUE INDEX IF NOT EXISTS. */
    method CreateIndex() returns (ok: bool)
      modifies this
      ensures rows == old(rows)
      ensures ok <==> old(indexed) || OneActive(rows)
      ensures indexed == ok
    {
      if !indexed { indexed := OneActive(rows); }
      ok := indexed;
    }

    /** The clean-up and the index; it cannot fail. */
    method Migrate(now: nat) returns (ok: bool)
      requires IdsDistinct(rows)
      modifies this
      ensures ok && indexed && rows == Supersede(old(rows), now)
    {
      rows := Supersede(rows, now);
      SupersedeExactly(old(rows), now);
      ok := CreateIndex();
    }
  }
}
