/**
 Deleting publications as it really runs (db.py): the row look-up, the count of
 submissions and the DELETE each on a connection of its own, among publishes,
 expansions, submits and other deletes.
 */
module Deletions {
  import opened Expansions
  import opened Publications
  import opened Questionnaires
  import opened Tables

  /** The columns by which submissions are counted. */
  type Columns = (nat, nat, Stage)

  function ColumnsOf(key: Key): Columns { (key.questionnaire, key.session, key.stage) }

  /** A delete under way: the row it read, and once counted, whether there were submissions. */
  datatype Deletion = Deletion(id: nat, columns: Columns, counted: Option<bool>)

  datatype Office = Office(shared: Shared, deletions: map<int, Deletion>)

  datatype Act =
    | Work(move: Move)
    | Look(who: int, id: nat)
    | Count(who: int)
    | Finish(who: int)
    | Drop(who: int)

  function RowWith(pubs: seq<Publication>, id: nat): (p: Option<Publication>)
    ensures p.None? <==> !HasId(pubs, id)
    ensures p.Some? ==> p.value in pubs && p.value.id == id
  {
    if pubs == [] then None else if pubs[0].id == id then Some(pubs[0]) else
      assert forall i :: 0 < i < |pubs| ==> pubs[i] == pubs[1..][i - 1];
      RowWith(pubs[1..], id)
  }

  /** The last statement: close the row when submissions were counted, else DELETE. */
  function Ended(db: Db, d: Deletion): Db {
    if d.counted == Some(true) then db.(pubs := SwitchRow(db.pubs, d.id, false, None))
    else db.(pubs := RemoveRow(db.pubs, d.id))
  }

  function Step(c: Catalog, o: Office, a: Act): Office {
    match a
    case Work(m) => o.(shared := SharedStep(c, o.shared, m))
    case Look(who, id) =>
      var row := RowWith(o.shared.db.pubs, id);
      if who in o.deletions || row.None? then o
      else o.(deletions := o.deletions[who := Deletion(id, ColumnsOf(KeyOf(row.value)), None)])
    case Count(who) =>
      if who !in o.deletions || o.deletions[who].counted.Some? then o else
        var d := o.deletions[who];
        o.(deletions := o.deletions[who := d.(counted := Some(d.columns in o.shared.db.answered))])
    case Finish(who) =>
      if who !in o.deletions || o.deletions[who].counted.None? then o
      else Office(o.shared.(db := Ended(o.shared.db, o.deletions[who])), o.deletions - {who})
    case Drop(who) => o.(deletions := o.deletions - {who})
  }

  function Run(c: Catalog, o: Office, acts: seq<Act>): Office {
    if acts == [] then o else Step(c, Run(c, o, acts[..|acts| - 1]), acts[|acts| - 1])
  }

  // ---------------------------------------------------------------- alone

  lemma RunNext(c: Catalog, o: Office, init: seq<Act>, a: Act)
    ensures Run(c, o, init + [a]) == Step(c, Run(c, o, init), a)
  {
    assert (init + [a])[..|init|] == init;
  }

  lemma RunThree(c: Catalog, o: Office, a: Act, b: Act, d: Act)
    ensures Run(c, o, [a, b, d]) == Step(c, Step(c, Step(c, o, a), b), d)
  {
    RunNext(c, o, [], a);
    RunNext(c, o, [a], b);
    RunNext(c, o, [a, b], d);
    assert [] + [a] == [a] && [a] + [b] == [a, b] && [a, b] + [d] == [a, b, d];
  }

  /** The count of a row's columns decides what the whole operation decides. */
  lemma EndedIsDelete(db: Db, p: Publication)
    requires PubInv(db) && p in db.pubs
    ensures Ended(db, Deletion(p.id, ColumnsOf(KeyOf(p)), Some(ColumnsOf(KeyOf(p)) in db.answered))) ==
            Delete(db, p.id).0
  {
    var k :| 0 <= k < |db.pubs| && db.pubs[k] == p;
    assert forall i :: 0 <= i < |db.pubs| && db.pubs[i].id == p.id ==> i == k;
    assert HasId(db.pubs, p.id);
    assert Answered(db, db.pubs[k]) <==> ColumnsOf(KeyOf(p)) in db.answered;
  }

  lemma LookAndCount(c: Catalog, o: Office, who: int, p: Publication)
    requires who !in o.deletions && RowWith(o.shared.db.pubs, p.id) == Some(p)
    ensures var columns := ColumnsOf(KeyOf(p));
            Step(c, Step(c, o, Look(who, p.id)), Count(who)) == o.(deletions := o.deletions[who :=
                Deletion(p.id, columns, Some(columns in o.shared.db.answered))])
  {
    var d := Deletion(p.id, ColumnsOf(KeyOf(p)), None);
    assert Step(c, o, Look(who, p.id)) == o.(deletions := o.deletions[who := d]);
  }

  lemma FinishCounted(c: Catalog, o: Office, who: int, d: Deletion)
    requires who !in o.deletions && d.counted.Some?
    ensures Step(c, o.(deletions := o.deletions[who := d]), Finish(who)) ==
            o.(shared := o.shared.(db := Ended(o.shared.db, d)))
  {
    assert o.deletions[who := d] - {who} == o.deletions;
  }

  /** A delete nobody comes between is the whole operation. */
  lemma DeleteAlone(c: Catalog, o: Office, who: int, id: nat)
    requires PubInv(o.shared.db) && who !in o.deletions
    ensures Run(c, o, [Look(who, id), Count(who), Finish(who)]) ==
            o.(shared := o.shared.(db := Delete(o.shared.db, id).0))
  {
    RunThree(c, o, Look(who, id), Count(who), Finish(who));
    var row := RowWith(o.shared.db.pubs, id);
    if row.Some? {
      var columns := ColumnsOf(KeyOf(row.value));
      EndedIsDelete(o.shared.db, row.value);
      LookAndCount(c, o, who, row.value);
      FinishCounted(c, o, who, Deletion(id, columns, Some(columns in o.shared.db.answered)));
    }
  }

  // ---------------------------------------------------------------- what every step inherits

  /** Ids are never used twice: a row with an old id is an old row, under its old key. Answers stay. */
  ghost predicate Inherits(before: Db, after: Db) {
    && before.nextId <= after.nextId && before.answered <= after.answered
    && forall i :: 0 <= i < |after.pubs| && after.pubs[i].id < before.nextId ==>
         HasRow(before.pubs, after.pubs[i].id, KeyOf(after.pubs[i]))
  }

  lemma RowAt(pubs: seq<Publication>, i: nat)
    requires i < |pubs|
    ensures HasRow(pubs, pubs[i].id, KeyOf(pubs[i]))
  {}

  lemma InheritsSelf(db: Db)
    ensures Inherits(db, db)
  {
    forall i | 0 <= i < |db.pubs| ensures HasRow(db.pubs, db.pubs[i].id, KeyOf(db.pubs[i])) { RowAt(db.pubs, i); }
  }

  lemma InheritsOn(a: Db, b: Db, d: Db)
    requires Inherits(a, b) && Inherits(b, d)
    ensures Inherits(a, d)
  {
    forall i | 0 <= i < |d.pubs| && d.pubs[i].id < a.nextId ensures HasRow(a.pubs, d.pubs[i].id, KeyOf(d.pubs[i])) {
      var j :| 0 <= j < |b.pubs| && b.pubs[j].id == d.pubs[i].id && KeyOf(b.pubs[j]) == KeyOf(d.pubs[i]);
      assert b.pubs[j].id < a.nextId;
    }
  }

  lemma OldRowInherited(before: Db, after: Db, id: nat, key: Key)
    requires Inherits(before, after) && id < before.nextId
    ensures HasRow(after.pubs, id, key) ==> HasRow(before.pubs, id, key)
  {
    if i :| 0 <= i < |after.pubs| && after.pubs[i].id == id && KeyOf(after.pubs[i]) == key {
      assert HasRow(before.pubs, after.pubs[i].id, KeyOf(after.pubs[i]));
    }
  }

  lemma RewriteInherits(db: Db, pubs: seq<Publication>)
    requires |pubs| == |db.pubs|
    requires forall i :: 0 <= i < |pubs| ==> pubs[i].id == db.pubs[i].id && KeyOf(pubs[i]) == KeyOf(db.pubs[i])
    ensures Inherits(db, db.(pubs := pubs))
  {
    forall i | 0 <= i < |pubs| ensures HasRow(db.pubs, pubs[i].id, KeyOf(pubs[i])) { RowAt(db.pubs, i); }
  }

  lemma SwitchInherits(db: Db, id: nat, enabled: bool, setId: Option<nat>)
    ensures Inherits(db, db.(pubs := SwitchRow(db.pubs, id, enabled, setId)))
  {
    RewriteInherits(db, SwitchRow(db.pubs, id, enabled, setId));
  }

  lemma RemoveInherits(db: Db, id: nat)
    ensures Inherits(db, db.(pubs := RemoveRow(db.pubs, id)))
  {
    var after := RemoveRow(db.pubs, id);
    forall i | 0 <= i < |after| ensures HasRow(db.pubs, after[i].id, KeyOf(after[i])) {
      assert after[i] in after;
      var j :| 0 <= j < |db.pubs| && db.pubs[j] == after[i];
      RowAt(db.pubs, j);
    }
  }

  lemma CreateInherits(c: Catalog, db: Db, t: Target, s: Scope, setId: Option<nat>, stale: bool)
    ensures Inherits(db, Create(c, db, t, s, setId, stale).0)
    ensures Create(c, db, t, s, setId, stale).0.answered == db.answered
  {
    InheritsSelf(db);
    var after := Create(c, db, t, s, setId, stale).0;
    forall i | 0 <= i < |after.pubs| && after.pubs[i].id < db.nextId
      ensures HasRow(db.pubs, after.pubs[i].id, KeyOf(after.pubs[i]))
    {
      RowAt(db.pubs, i);
    }
  }

  lemma EnsureInherits(c: Catalog, db: Db, t: Target, s: Scope, setId: Option<nat>)
    ensures Inherits(db, Ensure(c, db, t, s, setId).0) && Ensure(c, db, t, s, setId).0.answered == db.answered
  {
    var existing := FindKey(db.pubs, TargetKey(t, s));
    if existing.Some? { SwitchInherits(db, existing.value, true, setId); }
    else { CreateInherits(c, db, t, s, setId, false); }
  }

  lemma {:induction false} EnsureAllInherits(c: Catalog, db: Db, ts: seq<Target>, s: Scope, setId: Option<nat>)
    ensures Inherits(db, EnsureAll(c, db, ts, s, setId).0) && EnsureAll(c, db, ts, s, setId).0.answered == db.answered
  {
    if ts == [] {
      InheritsSelf(db);
    } else {
      var init, t := ts[..|ts| - 1], ts[|ts| - 1];
      var before := EnsureAll(c, db, init, s, setId);
      EnsureAllInherits(c, db, init, s, setId);
      if before.1.Done? {
        EnsureInherits(c, before.0, t, s, setId);
        InheritsOn(db, before.0, Ensure(c, before.0, t, s, setId).0);
      }
    }
  }

  lemma DeleteInherits(db: Db, id: nat)
    ensures Inherits(db, Delete(db, id).0) && Delete(db, id).0.answered == db.answered
  {
    InheritsSelf(db);
    SwitchInherits(db, id, false, None);
    RemoveInherits(db, id);
  }

  predicate Submits(a: Act, columns: Columns) { a == Work(Other(SubmitEv(columns.0, columns.1, columns.2))) }

  lemma ApplyInherits(c: Catalog, db: Db, e: Event)
    ensures Inherits(db, Apply(c, db, e))
    ensures forall col :: col in Apply(c, db, e).answered - db.answered ==> Submits(Work(Other(e)), col)
  {
    InheritsSelf(db);
    match e
    case CreateEv(t, s, setId, stale) => CreateInherits(c, db, t, s, setId, stale);
    case PublishEv(q, stage, s) =>
      if q in c.questionnaires {
        var stages := if stage.Some? then [stage.value] else StagesOf(c.questionnaires[q].timing);
        EnsureAllInherits(c, db, StageTargets(q, stages), s, None);
      }
    case ExpandEv(setId, s) =>
      if setId in c.sets { EnsureAllInherits(c, db, SetTargets(c, c.sets[setId].items), s, Some(setId)); }
    case StatusEv(id, enabled) => SwitchInherits(db, id, enabled, None);
    case DeleteEv(id) => DeleteInherits(db, id);
    case SubmitEv(_, _, _) =>
  }

  lemma AdvanceInherits(c: Catalog, db: Db, j: Job, stale: bool)
    requires Running(j)
    ensures Inherits(db, AdvanceJob(c, db, j, stale).0) && AdvanceJob(c, db, j, stale).0.answered == db.answered
  {
    InheritsSelf(db);
    match j.phase
    case Ready =>
    case Saw(Some(id)) => SwitchInherits(db, id, true, None);
    case Saw(None) => CreateInherits(c, db, NextTarget(j), j.scope, j.setId, stale);
    case Opened(id) => RewriteInherits(db, TagRow(db.pubs, id, j.setId));
  }

  /** Nothing but a submit adds an answer. */
  lemma StepInherits(c: Catalog, o: Office, a: Act)
    ensures var before, after := o.shared.db, Step(c, o, a).shared.db;
            && Inherits(before, after)
            && forall col :: col in after.answered - before.answered ==> Submits(a, col)
  {
    hide Inherits, Apply, AdvanceJob, SwitchRow, RemoveRow;
    InheritsSelf(o.shared.db);
    match a
    case Work(Advance(who, stale)) =>
      var jobs := o.shared.jobs;
      if who in jobs && Running(jobs[who]) { AdvanceInherits(c, o.shared.db, jobs[who], stale); }
    case Work(Other(e)) => ApplyInherits(c, o.shared.db, e);
    case Finish(who) =>
      if who in o.deletions {
        SwitchInherits(o.shared.db, o.deletions[who].id, false, None);
        RemoveInherits(o.shared.db, o.deletions[who].id);
      }
    case _ =>
  }

  // ---------------------------------------------------------------- invariant

  /** The columns a delete read are those of any row with its id. */
  ghost predicate DeletionOk(db: Db, d: Deletion) {
    d.id < db.nextId && forall key :: HasRow(db.pubs, d.id, key) ==> ColumnsOf(key) == d.columns
  }

  ghost predicate OfficeInv(o: Office) {
    && PubInv(o.shared.db)
    && forall who :: who in o.deletions ==> DeletionOk(o.shared.db, o.deletions[who])
  }

  lemma DeletionStaysOk(before: Db, after: Db, d: Deletion)
    requires DeletionOk(before, d) && Inherits(before, after)
    ensures DeletionOk(after, d)
  {
    forall key | HasRow(after.pubs, d.id, key) ensures ColumnsOf(key) == d.columns {
      OldRowInherited(before, after, d.id, key);
    }
  }

  lemma FoundIsOk(db: Db, p: Publication)
    requires PubInv(db) && p in db.pubs
    ensures DeletionOk(db, Deletion(p.id, ColumnsOf(KeyOf(p)), None))
  {
    var k :| 0 <= k < |db.pubs| && db.pubs[k] == p;
    forall key | HasRow(db.pubs, p.id, key) ensures key == KeyOf(p) {
      var i :| 0 <= i < |db.pubs| && db.pubs[i].id == p.id && KeyOf(db.pubs[i]) == key;
      assert i == k;
    }
  }

  lemma StepKeepsPubInv(c: Catalog, o: Office, a: Act)
    requires PubInv(o.shared.db)
    ensures PubInv(Step(c, o, a).shared.db)
  {
    hide KeysUnique, IdsUnique, SharedStep, SwitchRow, RemoveRow;
    match a
    case Work(m) => SharedStepKeepsInv(c, o.shared, m);
    case Finish(who) =>
      if who in o.deletions {
        SwitchKeepsInv(o.shared.db, o.deletions[who].id, false, None);
        RemoveKeepsInv(o.shared.db.pubs, o.shared.db.nextId, o.deletions[who].id);
      }
    case _ =>
  }

  /** A delete under way after a step was under way before, counted or not, or has just read its row. */
  lemma DeletionOrigin(c: Catalog, o: Office, a: Act, who: int)
    requires who in Step(c, o, a).deletions
    ensures var d := Step(c, o, a).deletions[who];
            if who in o.deletions then d == o.deletions[who] || (a == Count(who) && CountsNow(o, who, d))
            else && a.Look? && d.counted.None?
                 && exists p :: p in o.shared.db.pubs && p.id == d.id && ColumnsOf(KeyOf(p)) == d.columns
  {}

  /** `who` is about to count, and `d` is what it will hold. */
  predicate CountsNow(o: Office, who: int, d: Deletion) {
    && who in o.deletions && o.deletions[who].counted.None?
    && d == o.deletions[who].(counted := Some(d.columns in o.shared.db.answered))
  }

  lemma StepKeepsOfficeInv(c: Catalog, o: Office, a: Act)
    requires OfficeInv(o)
    ensures OfficeInv(Step(c, o, a))
  {
    var after := Step(c, o, a);
    StepKeepsPubInv(c, o, a);
    StepInherits(c, o, a);
    forall who | who in after.deletions ensures DeletionOk(after.shared.db, after.deletions[who]) {
      DeletionOrigin(c, o, a, who);
      var d := after.deletions[who];
      if who in o.deletions {
        DeletionStaysOk(o.shared.db, after.shared.db, o.deletions[who]);
      } else {
        var p :| p in o.shared.db.pubs && p.id == d.id && ColumnsOf(KeyOf(p)) == d.columns;
        FoundIsOk(o.shared.db, p);
      }
    }
  }

  /**
   However deletes, publishes, expansions and other writers mix, a questionnaire is published
   at most once per session, stage and scope, and a delete counts for the row it removes.
   */
  lemma {:induction false} RunKeepsOfficeInv(c: Catalog, o: Office, acts: seq<Act>)
    requires OfficeInv(o)
    ensures OfficeInv(Run(c, o, acts))
  {
    if acts != [] {
      RunKeepsOfficeInv(c, o, acts[..|acts| - 1]);
      StepKeepsOfficeInv(c, Run(c, o, acts[..|acts| - 1]), acts[|acts| - 1]);
    }
  }

  lemma {:induction false} RunInherits(c: Catalog, o: Office, acts: seq<Act>, n: nat)
    requires n <= |acts|
    ensures Inherits(Run(c, o, acts[..n]).shared.db, Run(c, o, acts).shared.db)
  {
    if n == |acts| {
      assert acts[..n] == acts;
      InheritsSelf(Run(c, o, acts).shared.db);
    } else {
      var init := acts[..|acts| - 1];
      assert init[..n] == acts[..n];
      RunInherits(c, o, init, n);
      StepInherits(c, Run(c, o, init), acts[|acts| - 1]);
      InheritsOn(Run(c, o, acts[..n]).shared.db, Run(c, o, init).shared.db, Run(c, o, acts).shared.db);
    }
  }

  // ---------------------------------------------------------------- losing an answered publication

  /** The step is the DELETE of this row by a caller that counted no submissions. */
  predicate Removes(o: Office, a: Act, id: nat) {
    a.Finish? && a.who in o.deletions && o.deletions[a.who].id == id && o.deletions[a.who].counted == Some(false)
  }

  lemma WorkKeepsAnswered(c: Catalog, sh: Shared, m: Move, id: nat, key: Key)
    requires AnsweredRow(sh.db, id, key)
    ensures AnsweredRow(SharedStep(c, sh, m).db, id, key)
  {
    match m
    case Advance(who, stale) =>
      if who in sh.jobs && Running(sh.jobs[who]) {
        AdvanceKeeps(c, sh.db, sh.jobs[who], stale);
        RowKept(sh.db.pubs, SharedStep(c, sh, m).db.pubs, id, key);
        AdvanceInherits(c, sh.db, sh.jobs[who], stale);
      }
    case Other(e) => ApplyKeepsAnswered(c, sh.db, e, id, key);
    case _ =>
  }

  lemma RemovedHasNoRow(pubs: seq<Publication>, id: nat, key: Key)
    ensures !HasRow(RemoveRow(pubs, id), id, key)
  {
    var left := RemoveRow(pubs, id);
    forall i | 0 <= i < |left| ensures left[i].id != id { assert left[i] in left; }
  }

  lemma RemoveKeepsExactly(pubs: seq<Publication>, gone: nat, id: nat, key: Key)
    requires HasRow(pubs, id, key)
    ensures HasRow(RemoveRow(pubs, gone), id, key) <==> gone != id
  {
    if gone == id {
      RemovedHasNoRow(pubs, id, key);
    } else {
      var i :| 0 <= i < |pubs| && pubs[i].id == id && KeyOf(pubs[i]) == key;
      var left := RemoveRow(pubs, gone);
      assert pubs[i] in left;
      var k :| 0 <= k < |left| && left[k] == pubs[i];
      RowAt(left, k);
    }
  }

  lemma EndedKeepsExactly(db: Db, d: Deletion, id: nat, key: Key)
    requires HasRow(db.pubs, id, key) && d.counted.Some?
    ensures HasRow(Ended(db, d).pubs, id, key) <==> !(d.id == id && d.counted == Some(false))
  {
    assert d.counted == Some(d.counted.value);
    if d.counted.value {
      SwitchKeepsRow(db.pubs, d.id, false, None, id, key);
    } else {
      RemoveKeepsExactly(db.pubs, d.id, id, key);
    }
  }

  /** One step loses an answered publication exactly when it is the DELETE of a caller that counted none. */
  lemma StepKeepsAnsweredExactly(c: Catalog, o: Office, a: Act, id: nat, key: Key)
    requires AnsweredRow(o.shared.db, id, key)
    ensures AnsweredRow(Step(c, o, a).shared.db, id, key) <==> !Removes(o, a, id)
  {
    match a
    case Work(m) => WorkKeepsAnswered(c, o.shared, m, id, key);
    case Finish(who) =>
      if who in o.deletions && o.deletions[who].counted.Some? {
        EndedKeepsExactly(o.shared.db, o.deletions[who], id, key);
      }
    case _ =>
  }

  /** Action `i` of the run is the count that gave `d`. */
  predicate CountedAt(c: Catalog, o: Office, acts: seq<Act>, who: int, d: Deletion, i: nat) {
    i < |acts| && acts[i] == Count(who) && CountsNow(Run(c, o, acts[..i]), who, d)
  }

  /** Whoever has counted did so at some point of the run. */
  lemma {:induction false} CountHappened(c: Catalog, o: Office, acts: seq<Act>, who: int) returns (i: nat)
    requires o.deletions == map[]
    requires who in Run(c, o, acts).deletions && Run(c, o, acts).deletions[who].counted.Some?
    ensures CountedAt(c, o, acts, who, Run(c, o, acts).deletions[who], i)
  {
    var init, a := acts[..|acts| - 1], acts[|acts| - 1];
    var before, d := Run(c, o, init), Run(c, o, acts).deletions[who];
    DeletionOrigin(c, before, a, who);
    if d == before.deletions[who] {
      i := CountHappened(c, o, init, who);
      assert init[..i] == acts[..i];
    } else {
      i := |init|;
    }
  }

  /** An answer that came between two moments came by a submit. */
  lemma {:induction false} SubmitBetween(c: Catalog, o: Office, acts: seq<Act>, i: nat, columns: Columns)
    returns (j: nat)
    requires i <= |acts| && columns !in Run(c, o, acts[..i]).shared.db.answered
    requires columns in Run(c, o, acts).shared.db.answered
    ensures i <= j < |acts| && Submits(acts[j], columns)
  {
    assert acts[..|acts|] == acts;
    var init, a := acts[..|acts| - 1], acts[|acts| - 1];
    if columns in Run(c, o, init).shared.db.answered {
      assert init[..i] == acts[..i];
      j := SubmitBetween(c, o, init, i, columns);
    } else {
      StepInherits(c, Run(c, o, init), a);
      j := |init|;
    }
  }

  /**
   At step k a delete removes the row: it counted at step i, found no submission, and the
   submit at step j, between the two, answered the questionnaire.
   */
  ghost predicate Overtaken(c: Catalog, o: Office, acts: seq<Act>, id: nat, key: Key, i: nat, j: nat, k: nat) {
    i < j < k < |acts| &&
    var now := Run(c, o, acts[..k]);
    && Removes(now, acts[k], id) && HasRow(now.shared.db.pubs, id, key)
    && CountedAt(c, o, acts, acts[k].who, now.deletions[acts[k].who], i)
    && now.deletions[acts[k].who].columns == ColumnsOf(key)
    && Submits(acts[j], ColumnsOf(key))
  }

  /** The row is there and answered after the first n steps. */
  ghost predicate AnsweredAfter(c: Catalog, o: Office, acts: seq<Act>, n: nat, id: nat, key: Key) {
    n <= |acts| && AnsweredRow(Run(c, o, acts[..n]).shared.db, id, key)
  }

  /** Between being there and answered, and not, lies the step that loses it. */
  lemma {:induction false} LosingStep(c: Catalog, o: Office, acts: seq<Act>, n: nat, id: nat, key: Key) returns (k: nat)
    requires AnsweredAfter(c, o, acts, n, id, key) && !AnsweredRow(Run(c, o, acts).shared.db, id, key)
    ensures n <= k < |acts| && AnsweredAfter(c, o, acts, k, id, key) && Removes(Run(c, o, acts[..k]), acts[k], id)
  {
    assert acts[..|acts|] == acts;
    var init, a := acts[..|acts| - 1], acts[|acts| - 1];
    if AnsweredRow(Run(c, o, init).shared.db, id, key) {
      StepKeepsAnsweredExactly(c, Run(c, o, init), a, id, key);
      k := |init|;
    } else {
      assert init[..n] == acts[..n];
      k := LosingStep(c, o, init, n, id, key);
      assert init[..k] == acts[..k];
    }
  }

  /** A step that loses an answered row was overtaken by a submit. */
  lemma LosingIsOvertaken(c: Catalog, o: Office, acts: seq<Act>, k: nat, id: nat, key: Key) returns (i: nat, j: nat)
    requires OfficeInv(o) && o.deletions == map[] && k < |acts|
    requires AnsweredAfter(c, o, acts, k, id, key) && Removes(Run(c, o, acts[..k]), acts[k], id)
    ensures Overtaken(c, o, acts, id, key, i, j, k)
  {
    var past := acts[..k];
    var now := Run(c, o, past);
    var d := now.deletions[acts[k].who];
    RunKeepsOfficeInv(c, o, past);
    assert DeletionOk(now.shared.db, d);
    i := CountHappened(c, o, past, acts[k].who);
    assert past[..i] == acts[..i];
    j := SubmitBetween(c, o, past, i, d.columns);
    assert acts[i].Count?;
  }

  lemma OvertakenLoses(c: Catalog, o: Office, acts: seq<Act>, id: nat, key: Key, i: nat, j: nat, k: nat)
    requires OfficeInv(o) && Overtaken(c, o, acts, id, key, i, j, k)
    ensures AnsweredAfter(c, o, acts, k, id, key) && !AnsweredRow(Run(c, o, acts).shared.db, id, key)
  {
    var past := acts[..k];
    SubmittedStays(c, o, past, j, ColumnsOf(key));
    StepKeepsAnsweredExactly(c, Run(c, o, past), acts[k], id, key);
    RunKeepsOfficeInv(c, o, past);
    GoneForGood(c, o, acts, k, id, key);
  }

  lemma SubmittedStays(c: Catalog, o: Office, acts: seq<Act>, j: nat, columns: Columns)
    requires j < |acts| && Submits(acts[j], columns)
    ensures columns in Run(c, o, acts).shared.db.answered
  {
    assert acts[..j + 1][..j] == acts[..j];
    assert columns in Run(c, o, acts[..j + 1]).shared.db.answered;
    RunInherits(c, o, acts, j + 1);
  }

  /** A row once removed does not come back under its id. */
  lemma GoneForGood(c: Catalog, o: Office, acts: seq<Act>, k: nat, id: nat, key: Key)
    requires k < |acts| && OfficeInv(Run(c, o, acts[..k])) && Removes(Run(c, o, acts[..k]), acts[k], id)
    ensures !HasRow(Run(c, o, acts).shared.db.pubs, id, key)
  {
    var next := acts[..k + 1];
    assert next[..k] == acts[..k];
    var now, after := Run(c, o, acts[..k]), Run(c, o, next);
    assert DeletionOk(now.shared.db, now.deletions[acts[k].who]);
    assert after.shared.db.pubs == RemoveRow(now.shared.db.pubs, id);
    RemovedHasNoRow(now.shared.db.pubs, id, key);
    RunInherits(c, o, acts, k + 1);
    OldRowInherited(after.shared.db, Run(c, o, acts).shared.db, id, key);
  }

  /**
   A publication that was answered at some point of a run is missing at its end if and
   only if a submit landed between some delete's count and its DELETE.
   */
  lemma LosesAnsweredExactly(c: Catalog, o: Office, acts: seq<Act>, id: nat, key: Key)
    requires OfficeInv(o) && o.deletions == map[]
    ensures (exists n :: AnsweredAfter(c, o, acts, n, id, key)) && !AnsweredRow(Run(c, o, acts).shared.db, id, key) <==>
            exists i, j, k :: Overtaken(c, o, acts, id, key, i, j, k)
  {
    if n :| AnsweredAfter(c, o, acts, n, id, key) && !AnsweredRow(Run(c, o, acts).shared.db, id, key) {
      var k := LosingStep(c, o, acts, n, id, key);
      var i, j := LosingIsOvertaken(c, o, acts, k, id, key);
    }
    if i, j, k :| Overtaken(c, o, acts, id, key, i, j, k) {
      OvertakenLoses(c, o, acts, id, key, i, j, k);
    }
  }

  /** What was answered before any delete began is never lost. */
  lemma RunKeepsAnswered(c: Catalog, o: Office, acts: seq<Act>, id: nat, key: Key)
    requires OfficeInv(o) && o.deletions == map[] && AnsweredRow(o.shared.db, id, key)
    ensures AnsweredRow(Run(c, o, acts).shared.db, id, key)
  {
    assert acts[..0] == [];
    if !AnsweredRow(Run(c, o, acts).shared.db, id, key) {
      var k := LosingStep(c, o, acts, 0, id, key);
      var i, j := LosingIsOvertaken(c, o, acts, k, id, key);
      assert acts[..i][..0] == [];
      RunInherits(c, o, acts[..i], 0);
    }
  }

  // ---------------------------------------------------------------- a run that loses one

  const LESSON := Catalog(map[1 := Questionnaire(1, Both, true, 0)], map[], {1}, {}, {}, {})

  const NEW_OFFICE := Office(Shared(Db([], 1, {}), map[]), map[])

  const PUBLISHED := Publication(1, 1, 1, Pre, None, None, true, None)

  const PUBLISHED_KEY := Key(1, 1, Pre, 0, 0)

  /** The office with the publication, these answers, and these deletes under way. */
  function Published(answered: set<Columns>, deletions: map<int, Deletion>): Office {
    Office(Shared(Db([PUBLISHED], 2, answered), map[]), deletions)
  }

  const CREATE := Work(Other(CreateEv(Target(1, Pre), Publications.Scope(1, 0, 0), None, false)))

  const SUBMIT := Work(Other(SubmitEv(1, 1, Pre)))

  lemma Creates()
    ensures Step(LESSON, NEW_OFFICE, CREATE) == Published({}, map[])
  {
    assert [] + [PUBLISHED] == [PUBLISHED];
  }

  lemma LooksAndCounts()
    ensures var none: set<Columns> := {};
            Step(LESSON, Step(LESSON, Published(none, map[]), Look(0, 1)), Count(0)) ==
            Published(none, map[0 := Deletion(1, (1, 1, Pre), Some(false))])
  {
    var o := Published({}, map[]);
    assert [PUBLISHED][0] == PUBLISHED;
    LookAndCount(LESSON, o, 0, PUBLISHED);
  }

  lemma SubmitsThenDeletes()
    ensures var d := Deletion(1, (1, 1, Pre), Some(false));
            && Step(LESSON, Published({}, map[0 := d]), SUBMIT) == Published({(1, 1, Pre)}, map[0 := d])
            && Step(LESSON, Published({(1, 1, Pre)}, map[0 := d]), Finish(0)) ==
               Office(Shared(Db([], 2, {(1, 1, Pre)}), map[]), map[])
  {
    var d := Deletion(1, (1, 1, Pre), Some(false));
    assert {} + {(1, 1, Pre)} == {(1, 1, Pre)};
    assert [PUBLISHED][..0] == [];
    assert RemoveRow([PUBLISHED], 1) == RemoveRow([], 1) + [];
    assert map[0 := d] - {0} == map[];
  }

  /** From an empty table: published, looked up and counted by a delete, answered, deleted all the same. */
  lemma OvertakenDelete()
    ensures var acts := [CREATE, Look(0, 1), Count(0), SUBMIT, Finish(0)];
            && AnsweredAfter(LESSON, NEW_OFFICE, acts, 4, 1, PUBLISHED_KEY)
            && Run(LESSON, NEW_OFFICE, acts).shared.db == Db([], 2, {(1, 1, Pre)})
  {
    var acts := [CREATE, Look(0, 1), Count(0), SUBMIT, Finish(0)];
    RunThree(LESSON, NEW_OFFICE, CREATE, Look(0, 1), Count(0));
    RunNext(LESSON, NEW_OFFICE, [CREATE, Look(0, 1), Count(0)], SUBMIT);
    RunNext(LESSON, NEW_OFFICE, [CREATE, Look(0, 1), Count(0), SUBMIT], Finish(0));
    assert acts[..4] == [CREATE, Look(0, 1), Count(0)] + [SUBMIT];
    assert acts == [CREATE, Look(0, 1), Count(0), SUBMIT] + [Finish(0)];
    Creates();
    LooksAndCounts();
    SubmitsThenDeletes();
    assert [PUBLISHED][0] == PUBLISHED;
  }
}
