/**
 Publishing and expanding as they really run (db.py): row by row, each read and each
 write on its own connection, so that any number of them and other writers mix.
 */
module Expansions {
  import opened Publications
  import opened Questionnaires
  import opened Tables

  /** Before the look-up of the next row, after it, and after opening a row whose set id is still to be written. */
  datatype Phase = Ready | Saw(existing: Option<nat>) | Opened(id: nat)

  /** One running publish (no set id) or expand. */
  datatype Job = Job(scope: Scope, setId: Option<nat>, targets: seq<Target>, ids: seq<nat>, phase: Phase, raised: bool)

  datatype Shared = Shared(db: Db, jobs: map<int, Job>)

  /** `stale`: a create's own look-up ran before a concurrent insert. */
  datatype Move =
    | StartExpand(who: int, questionnaireSet: nat, scope: Scope)
    | StartPublish(who: int, questionnaire: nat, asked: Option<Stage>, scope: Scope)
    | Advance(who: int, stale: bool)
    | Other(event: Event)

  function ExpandJob(c: Catalog, setId: nat, s: Scope): Job {
    if setId !in c.sets || !c.sets[setId].active || s.session !in c.sessions
    then Job(s, Some(setId), [], [], Ready, true)
    else Job(s, Some(setId), SetTargets(c, c.sets[setId].items), [], Ready, false)
  }

  function PublishJob(c: Catalog, q: nat, asked: Option<Stage>, s: Scope): Job {
    if q !in c.questionnaires || s.session !in c.sessions then Job(s, None, [], [], Ready, true)
    else
      var stages := if asked.Some? then [asked.value] else StagesOf(c.questionnaires[q].timing);
      Job(s, None, StageTargets(q, stages), [], Ready, false)
  }

  /** UPDATE of the set id by row id. */
  function TagRow(pubs: seq<Publication>, id: nat, setId: Option<nat>): (r: seq<Publication>)
    ensures |r| == |pubs|
    ensures forall i :: 0 <= i < |r| ==> r[i] == if pubs[i].id == id then pubs[i].(setId := setId) else pubs[i]
  {
    seq(|pubs|, i requires 0 <= i < |pubs| => if pubs[i].id == id then pubs[i].(setId := setId) else pubs[i])
  }

  predicate Running(j: Job) { !j.raised && |j.ids| < |j.targets| }

  predicate Finished(j: Job) { !j.raised && |j.ids| == |j.targets| }

  function NextTarget(j: Job): Target
    requires Running(j)
  {
    j.targets[|j.ids|]
  }

  function Collect(j: Job, id: nat): Job { j.(ids := j.ids + [id], phase := Ready) }

  /** The next statement of a job. */
  function AdvanceJob(c: Catalog, db: Db, j: Job, stale: bool): (Db, Job)
    requires Running(j)
  {
    match j.phase
    case Ready => (db, j.(phase := Saw(FindKey(db.pubs, TargetKey(NextTarget(j), j.scope)))))
    case Saw(Some(id)) =>
      if !HasId(db.pubs, id) then (db, j.(raised := true))
      else (db.(pubs := SwitchRow(db.pubs, id, true, None)),
            if j.setId.Some? then j.(phase := Opened(id)) else Collect(j, id))
    case Saw(None) =>
      var created := Create(c, db, NextTarget(j), j.scope, j.setId, stale);
      (created.0, if created.1.Raised? then j.(raised := true) else Collect(j, created.1.value))
    case Opened(id) => (db.(pubs := TagRow(db.pubs, id, j.setId)), Collect(j, id))
  }

  function SharedStep(c: Catalog, sh: Shared, m: Move): Shared {
    match m
    case StartExpand(who, setId, s) =>
      if who in sh.jobs then sh else sh.(jobs := sh.jobs[who := ExpandJob(c, setId, s)])
    case StartPublish(who, q, asked, s) =>
      if who in sh.jobs then sh else sh.(jobs := sh.jobs[who := PublishJob(c, q, asked, s)])
    case Advance(who, stale) =>
      if who !in sh.jobs || !Running(sh.jobs[who]) then sh else
        var next := AdvanceJob(c, sh.db, sh.jobs[who], stale);
        Shared(next.0, sh.jobs[who := next.1])
    case Other(e) => sh.(db := Apply(c, sh.db, e))
  }

  function SharedRun(c: Catalog, sh: Shared, moves: seq<Move>): Shared {
    if moves == [] then sh else SharedStep(c, SharedRun(c, sh, moves[..|moves| - 1]), moves[|moves| - 1])
  }

  // ---------------------------------------------------------------- a job alone

  function PhaseRank(phase: Phase): nat { if phase.Ready? then 3 else if phase.Saw? then 2 else 1 }

  function StatementsLeft(j: Job): nat {
    if Running(j) then 3 * (|j.targets| - |j.ids| - 1) + PhaseRank(j.phase) else 0
  }

  /** The statements of a job nobody comes between, to its end. */
  function Driven(c: Catalog, db: Db, j: Job): (Db, Job)
    decreases StatementsLeft(j)
  {
    if !Running(j) then (db, j) else
      var next := AdvanceJob(c, db, j, false);
      Driven(c, next.0, next.1)
  }

  lemma FoundRow(pubs: seq<Publication>, key: Key)
    ensures FindKey(pubs, key).Some? ==> HasRow(pubs, FindKey(pubs, key).value, key)
  {
    if FindKey(pubs, key).Some? {
      var i :| 0 <= i < |pubs| && KeyOf(pubs[i]) == key && pubs[i].id == FindKey(pubs, key).value;
      assert pubs[i].id == FindKey(pubs, key).value;
    }
  }

  /** Opening a row and then tagging it is opening it under the set. */
  lemma SwitchThenTag(pubs: seq<Publication>, id: nat, setId: Option<nat>)
    requires setId.Some?
    ensures TagRow(SwitchRow(pubs, id, true, None), id, setId) == SwitchRow(pubs, id, true, setId)
  {}

  lemma DrivenNext(c: Catalog, db: Db, j: Job, next: (Db, Job))
    requires Running(j) && next == AdvanceJob(c, db, j, false)
    ensures Driven(c, db, j) == Driven(c, next.0, next.1)
  {}

  lemma DrivenStops(c: Catalog, db: Db, j: Job)
    requires !Running(j)
    ensures Driven(c, db, j) == (db, j)
  {}

  lemma OpenTarget(c: Catalog, db: Db, j: Job, id: nat)
    requires Running(j) && j.phase == Saw(Some(id)) && HasId(db.pubs, id)
    ensures Driven(c, db, j) == Driven(c, db.(pubs := SwitchRow(db.pubs, id, true, j.setId)), Collect(j, id))
  {
    hide Driven, SwitchRow, TagRow;
    var switched := db.(pubs := SwitchRow(db.pubs, id, true, None));
    if j.setId.Some? {
      SwitchThenTag(db.pubs, id, j.setId);
      DrivenNext(c, db, j, (switched, j.(phase := Opened(id))));
      DrivenNext(c, switched, j.(phase := Opened(id)),
          (switched.(pubs := TagRow(switched.pubs, id, j.setId)), Collect(j, id)));
    } else {
      DrivenNext(c, db, j, (switched, Collect(j, id)));
    }
  }

  lemma CreateTarget(c: Catalog, db: Db, j: Job)
    requires Running(j) && j.phase == Saw(None)
    ensures var created := Create(c, db, NextTarget(j), j.scope, j.setId, false);
            Driven(c, db, j) == if created.1.Done? then Driven(c, created.0, Collect(j, created.1.value))
                                else (created.0, j.(raised := true))
  {
    hide Driven, Create;
    var created := Create(c, db, NextTarget(j), j.scope, j.setId, false);
    if created.1.Done? {
      DrivenNext(c, db, j, (created.0, Collect(j, created.1.value)));
    } else {
      DrivenNext(c, db, j, (created.0, j.(raised := true)));
      DrivenStops(c, created.0, j.(raised := true));
    }
  }

  /** One target of a job alone is one step of the specification. */
  lemma OneTarget(c: Catalog, db: Db, j: Job)
    requires Running(j) && j.phase == Ready
    ensures var ensured := Ensure(c, db, NextTarget(j), j.scope, j.setId);
            var end := Driven(c, db, j);
            if ensured.1.Done? then end == Driven(c, ensured.0, Collect(j, ensured.1.value))
            else end.0 == ensured.0 && end.1.raised
  {
    hide Driven, Create, FindKey, SwitchRow, HasRow;
    var existing := FindKey(db.pubs, TargetKey(NextTarget(j), j.scope));
    var saw := j.(phase := Saw(existing));
    DrivenNext(c, db, j, (db, saw));
    if existing.Some? {
      FoundId(db.pubs, TargetKey(NextTarget(j), j.scope));
      OpenTarget(c, db, saw, existing.value);
    } else {
      CreateTarget(c, db, saw);
    }
  }

  lemma FoundId(pubs: seq<Publication>, key: Key)
    ensures FindKey(pubs, key).Some? ==> HasId(pubs, FindKey(pubs, key).value)
  {
    if FindKey(pubs, key).Some? {
      var i :| 0 <= i < |pubs| && KeyOf(pubs[i]) == key && pubs[i].id == FindKey(pubs, key).value;
    }
  }

  lemma {:induction false} DrivenFrom(c: Catalog, start: Db, db: Db, j: Job)
    requires !j.raised && j.phase == Ready && |j.ids| <= |j.targets|
    requires EnsureAll(c, start, j.targets[..|j.ids|], j.scope, j.setId) == (db, Done(j.ids))
    ensures var whole, end := EnsureAll(c, start, j.targets, j.scope, j.setId), Driven(c, db, j);
            && end.0 == whole.0
            && if whole.1.Done? then Finished(end.1) && end.1.ids == whole.1.value else end.1.raised
    decreases |j.targets| - |j.ids|
  {
    hide Driven, EnsureAll, Ensure;
    var k := |j.ids|;
    if k == |j.targets| {
      assert j.targets[..k] == j.targets;
      DrivenStops(c, db, j);
    } else {
      OneTarget(c, db, j);
      EnsureAllNext(c, start, j.targets, k, j.scope, j.setId);
      var ensured := Ensure(c, db, NextTarget(j), j.scope, j.setId);
      if ensured.1.Done? {
        DrivenFrom(c, start, ensured.0, Collect(j, ensured.1.value));
      } else {
        EnsureAllStopped(c, start, j.targets, k + 1, j.scope, j.setId);
      }
    }
  }

  /** A publish or expansion nobody comes between, run row by row, is the whole operation, even when a row raises. */
  lemma JobAlone(c: Catalog, db: Db, targets: seq<Target>, s: Scope, setId: Option<nat>)
    ensures var whole := EnsureAll(c, db, targets, s, setId);
            var end := Driven(c, db, Job(s, setId, targets, [], Ready, false));
            && end.0 == whole.0
            && if whole.1.Done? then Finished(end.1) && end.1.ids == whole.1.value else end.1.raised
  {
    DrivenFrom(c, db, db, Job(s, setId, targets, [], Ready, false));
  }

  /** So a started publish is publish_questionnaire_to_session, when nobody comes between, */
  lemma PublishAlone(c: Catalog, db: Db, q: nat, asked: Option<Stage>, s: Scope)
    ensures var whole, end := Publish(c, db, q, asked, s), Driven(c, db, PublishJob(c, q, asked, s));
            && end.0 == whole.0
            && if whole.1.Done? then Finished(end.1) && end.1.ids == whole.1.value else end.1.raised
  {
    hide Driven, EnsureAll;
    var j := PublishJob(c, q, asked, s);
    if j.raised { DrivenStops(c, db, j); } else { JobAlone(c, db, j.targets, s, None); }
  }

  /** and a started expansion expand_questionnaire_set_for_session. */
  lemma ExpandAlone(c: Catalog, db: Db, setId: nat, s: Scope)
    ensures var whole, end := Expand(c, db, setId, s), Driven(c, db, ExpandJob(c, setId, s));
            && end.0 == whole.0
            && if whole.1.Done? then Finished(end.1) && end.1.ids == whole.1.value else end.1.raised
  {
    hide Driven, EnsureAll;
    var j := ExpandJob(c, setId, s);
    if j.raised { DrivenStops(c, db, j); } else { JobAlone(c, db, j.targets, s, Some(setId)); }
  }

  // ---------------------------------------------------------------- unique publications, row by row

  lemma TagKeepsInv(db: Db, id: nat, setId: Option<nat>)
    requires PubInv(db)
    ensures PubInv(db.(pubs := TagRow(db.pubs, id, setId)))
  {
    var after := TagRow(db.pubs, id, setId);
    assert forall i :: 0 <= i < |after| ==> KeyOf(after[i]) == KeyOf(db.pubs[i]) && after[i].id == db.pubs[i].id;
  }

  lemma AdvanceKeepsInv(c: Catalog, db: Db, j: Job, stale: bool)
    requires PubInv(db) && Running(j)
    ensures PubInv(AdvanceJob(c, db, j, stale).0)
  {
    match j.phase
    case Ready =>
    case Saw(Some(id)) => SwitchKeepsInv(db, id, true, None);
    case Saw(None) => CreateKeepsInv(c, db, NextTarget(j), j.scope, j.setId, stale);
    case Opened(id) => TagKeepsInv(db, id, j.setId);
  }

  lemma SharedStepKeepsInv(c: Catalog, sh: Shared, m: Move)
    requires PubInv(sh.db)
    ensures PubInv(SharedStep(c, sh, m).db)
  {
    match m
    case Advance(who, stale) =>
      if who in sh.jobs && Running(sh.jobs[who]) { AdvanceKeepsInv(c, sh.db, sh.jobs[who], stale); }
    case Other(e) => ApplyKeepsInv(c, sh.db, e);
    case _ =>
  }

  /**
   However publishes, expansions and other writers mix, a questionnaire is published at
   most once per session, stage and scope.
   */
  lemma {:induction false} SharedRunKeepsInv(c: Catalog, sh: Shared, moves: seq<Move>)
    requires PubInv(sh.db)
    ensures PubInv(SharedRun(c, sh, moves).db)
  {
    if moves != [] {
      SharedRunKeepsInv(c, sh, moves[..|moves| - 1]);
      SharedStepKeepsInv(c, SharedRun(c, sh, moves[..|moves| - 1]), moves[|moves| - 1]);
    }
  }

  // ---------------------------------------------------------------- covering, row by row

  /** Nothing closes or deletes a publication. */
  predicate Quiet(m: Move) { m.Other? ==> !m.event.DeleteEv? && (m.event.StatusEv? ==> m.event.enabled) }

  /** Rows stay, with id and key, and open rows stay open. */
  ghost predicate Keeps(before: seq<Publication>, after: seq<Publication>) {
    && |before| <= |after|
    && forall i :: 0 <= i < |before| ==>
         after[i].id == before[i].id && KeyOf(after[i]) == KeyOf(before[i]) && (before[i].enabled ==> after[i].enabled)
  }

  lemma OpenKept(before: seq<Publication>, after: seq<Publication>, id: nat, key: Key)
    requires Keeps(before, after) && Open(before, id, key, None)
    ensures Open(after, id, key, None)
  {
    var i :| 0 <= i < |before| && before[i].id == id && KeyOf(before[i]) == key && before[i].enabled;
    assert after[i].id == id && KeyOf(after[i]) == key && after[i].enabled;
  }

  lemma RowKept(before: seq<Publication>, after: seq<Publication>, id: nat, key: Key)
    requires Keeps(before, after) && HasRow(before, id, key)
    ensures HasRow(after, id, key)
  {
    var i :| 0 <= i < |before| && before[i].id == id && KeyOf(before[i]) == key;
    assert after[i].id == id && KeyOf(after[i]) == key;
  }

  lemma CreateKeeps(c: Catalog, db: Db, t: Target, s: Scope, setId: Option<nat>, stale: bool)
    ensures Keeps(db.pubs, Create(c, db, t, s, setId, stale).0.pubs)
  {}

  lemma {:induction false} EnsureAllKeeps(c: Catalog, db: Db, ts: seq<Target>, s: Scope, setId: Option<nat>)
    ensures Keeps(db.pubs, EnsureAll(c, db, ts, s, setId).0.pubs)
  {
    if ts != [] {
      EnsureAllKeeps(c, db, ts[..|ts| - 1], s, setId);
      var before := EnsureAll(c, db, ts[..|ts| - 1], s, setId).0;
      EnsureKeeps(c, before, ts[|ts| - 1], s, setId);
    }
  }

  lemma EnsureKeeps(c: Catalog, db: Db, t: Target, s: Scope, setId: Option<nat>)
    ensures Keeps(db.pubs, Ensure(c, db, t, s, setId).0.pubs)
  {
    if FindKey(db.pubs, TargetKey(t, s)).None? { CreateKeeps(c, db, t, s, setId, false); }
  }

  lemma QuietEventKeeps(c: Catalog, db: Db, e: Event)
    requires Quiet(Other(e))
    ensures Keeps(db.pubs, Apply(c, db, e).pubs)
  {
    match e
    case CreateEv(t, s, setId, stale) => CreateKeeps(c, db, t, s, setId, stale);
    case PublishEv(q, stage, s) =>
      if q in c.questionnaires {
        var stages := if stage.Some? then [stage.value] else StagesOf(c.questionnaires[q].timing);
        EnsureAllKeeps(c, db, StageTargets(q, stages), s, None);
      }
    case ExpandEv(setId, s) =>
      if setId in c.sets { EnsureAllKeeps(c, db, SetTargets(c, c.sets[setId].items), s, Some(setId)); }
    case StatusEv(_, _) =>
    case SubmitEv(_, _, _) =>
  }

  lemma AdvanceKeeps(c: Catalog, db: Db, j: Job, stale: bool)
    requires Running(j)
    ensures Keeps(db.pubs, AdvanceJob(c, db, j, stale).0.pubs)
  {
    if j.phase == Saw(None) { CreateKeeps(c, db, NextTarget(j), j.scope, j.setId, stale); }
  }

  /** The rows a job collected are open, and the one it is at is the one it looked for. */
  ghost predicate JobOk(pubs: seq<Publication>, j: Job) {
    && |j.ids| <= |j.targets|
    && (forall i {:trigger OpenAt(pubs, j.ids, j.targets, i, j.scope, None)} :: 0 <= i < |j.ids| ==>
        OpenAt(pubs, j.ids, j.targets, i, j.scope, None))
    && (j.phase != Ready ==> |j.ids| < |j.targets|)
    && (j.phase.Saw? && j.phase.existing.Some? ==>
        HasRow(pubs, j.phase.existing.value, TargetKey(j.targets[|j.ids|], j.scope)))
    && (j.phase.Opened? ==> Open(pubs, j.phase.id, TargetKey(j.targets[|j.ids|], j.scope), None))
  }

  lemma JobStaysOk(before: seq<Publication>, after: seq<Publication>, j: Job)
    requires Keeps(before, after) && JobOk(before, j)
    ensures JobOk(after, j)
  {
    forall i | 0 <= i < |j.ids| ensures OpenAt(after, j.ids, j.targets, i, j.scope, None) {
      assert OpenAt(before, j.ids, j.targets, i, j.scope, None);
      OpenKept(before, after, j.ids[i], TargetKey(j.targets[i], j.scope));
    }
    if j.phase.Saw? && j.phase.existing.Some? {
      RowKept(before, after, j.phase.existing.value, TargetKey(j.targets[|j.ids|], j.scope));
    }
    if j.phase.Opened? { OpenKept(before, after, j.phase.id, TargetKey(j.targets[|j.ids|], j.scope)); }
  }

  lemma CollectOk(pubs: seq<Publication>, j: Job, id: nat)
    requires JobOk(pubs, j) && Running(j) && Open(pubs, id, TargetKey(NextTarget(j), j.scope), None)
    ensures JobOk(pubs, Collect(j, id))
  {
    var after := Collect(j, id);
    forall i | 0 <= i < |after.ids| ensures OpenAt(pubs, after.ids, after.targets, i, after.scope, None) {
      if i < |j.ids| { assert OpenAt(pubs, j.ids, j.targets, i, j.scope, None); }
    }
  }

  lemma SwitchOpens(pubs: seq<Publication>, id: nat, key: Key)
    requires HasRow(pubs, id, key)
    ensures Open(SwitchRow(pubs, id, true, None), id, key, None)
  {
    var i :| 0 <= i < |pubs| && pubs[i].id == id && KeyOf(pubs[i]) == key;
    var after := SwitchRow(pubs, id, true, None);
    assert after[i].id == id && KeyOf(after[i]) == key && after[i].enabled;
  }

  lemma CreateOpens(c: Catalog, db: Db, t: Target, s: Scope, setId: Option<nat>, stale: bool)
    requires Create(c, db, t, s, setId, stale).1.Done?
    ensures var r := Create(c, db, t, s, setId, stale); Open(r.0.pubs, r.1.value, TargetKey(t, s), None)
  {
    var after := Create(c, db, t, s, setId, stale).0.pubs;
    assert KeyOf(after[|db.pubs|]) == TargetKey(t, s);
  }

  lemma AdvanceJobOk(c: Catalog, db: Db, j: Job, stale: bool)
    requires Running(j) && JobOk(db.pubs, j)
    ensures JobOk(AdvanceJob(c, db, j, stale).0.pubs, AdvanceJob(c, db, j, stale).1)
  {
    var after, key := AdvanceJob(c, db, j, stale).0.pubs, TargetKey(NextTarget(j), j.scope);
    AdvanceKeeps(c, db, j, stale);
    JobStaysOk(db.pubs, after, j);
    match j.phase
    case Ready => FoundRow(db.pubs, key);
    case Saw(Some(id)) =>
      if HasId(db.pubs, id) {
        SwitchOpens(db.pubs, id, key);
        CollectOk(after, j, id);
      }
    case Saw(None) =>
      var created := Create(c, db, NextTarget(j), j.scope, j.setId, stale);
      if created.1.Done? {
        CreateOpens(c, db, NextTarget(j), j.scope, j.setId, stale);
        CollectOk(after, j, created.1.value);
      }
    case Opened(id) => CollectOk(after, j, id);
  }

  ghost predicate JobsOk(sh: Shared) { forall who :: who in sh.jobs ==> JobOk(sh.db.pubs, sh.jobs[who]) }

  lemma QuietStepKeepsJobs(c: Catalog, sh: Shared, m: Move)
    requires JobsOk(sh) && Quiet(m)
    ensures JobsOk(SharedStep(c, sh, m))
  {
    var after := SharedStep(c, sh, m);
    match m
    case Advance(who, stale) =>
      if who in sh.jobs && Running(sh.jobs[who]) {
        AdvanceKeeps(c, sh.db, sh.jobs[who], stale);
        AdvanceJobOk(c, sh.db, sh.jobs[who], stale);
        forall other | other in sh.jobs && other != who ensures JobOk(after.db.pubs, sh.jobs[other]) {
          JobStaysOk(sh.db.pubs, after.db.pubs, sh.jobs[other]);
        }
      }
    case Other(e) =>
      QuietEventKeeps(c, sh.db, e);
      forall who | who in sh.jobs ensures JobOk(after.db.pubs, sh.jobs[who]) {
        JobStaysOk(sh.db.pubs, after.db.pubs, sh.jobs[who]);
      }
    case _ =>
  }

  lemma {:induction false} QuietRunKeepsJobs(c: Catalog, sh: Shared, moves: seq<Move>)
    requires JobsOk(sh) && forall i :: 0 <= i < |moves| ==> Quiet(moves[i])
    ensures JobsOk(SharedRun(c, sh, moves))
  {
    if moves != [] {
      QuietRunKeepsJobs(c, sh, moves[..|moves| - 1]);
      QuietStepKeepsJobs(c, SharedRun(c, sh, moves[..|moves| - 1]), moves[|moves| - 1]);
    }
  }

  /**
   Covering: as long as nobody closes or deletes, every publish and expansion that
   finishes has all its targets open under the ids it returns, also at the end of
   the run, whatever else ran in between its rows.
   */
  lemma FinishedJobsCover(c: Catalog, sh: Shared, moves: seq<Move>, who: int, i: nat)
    requires JobsOk(sh) && forall k :: 0 <= k < |moves| ==> Quiet(moves[k])
    requires var after := SharedRun(c, sh, moves);
             who in after.jobs && Finished(after.jobs[who]) && i < |after.jobs[who].ids|
    ensures var after := SharedRun(c, sh, moves);
            var j := after.jobs[who];
            Open(after.db.pubs, j.ids[i], TargetKey(j.targets[i], j.scope), None)
  {
    QuietRunKeepsJobs(c, sh, moves);
    var after := SharedRun(c, sh, moves);
    var j := after.jobs[who];
    assert OpenAt(after.db.pubs, j.ids, j.targets, i, j.scope, None);
  }

  lemma OpenIdUnique(pubs: seq<Publication>, key: Key, id: nat, other: nat)
    requires KeysUnique(pubs) && Open(pubs, id, key, None) && Open(pubs, other, key, None)
    ensures id == other
  {
    var i :| 0 <= i < |pubs| && pubs[i].id == id && KeyOf(pubs[i]) == key;
    var k :| 0 <= k < |pubs| && pubs[k].id == other && KeyOf(pubs[k]) == key;
    assert i == k;
  }

  /** Two jobs over the same targets and scope, run side by side in any mix, return the same ids if both finish. */
  lemma FinishedJobsAgree(c: Catalog, sh: Shared, moves: seq<Move>, one: int, two: int)
    requires PubInv(sh.db) && JobsOk(sh) && forall k :: 0 <= k < |moves| ==> Quiet(moves[k])
    requires var after := SharedRun(c, sh, moves);
             && one in after.jobs && two in after.jobs && Finished(after.jobs[one]) && Finished(after.jobs[two])
             && after.jobs[one].targets == after.jobs[two].targets && after.jobs[one].scope == after.jobs[two].scope
    ensures SharedRun(c, sh, moves).jobs[one].ids == SharedRun(c, sh, moves).jobs[two].ids
  {
    var after := SharedRun(c, sh, moves);
    var a, b := after.jobs[one], after.jobs[two];
    SharedRunKeepsInv(c, sh, moves);
    QuietRunKeepsJobs(c, sh, moves);
    forall i | 0 <= i < |a.ids| ensures a.ids[i] == b.ids[i] {
      assert OpenAt(after.db.pubs, a.ids, a.targets, i, a.scope, None)
          && OpenAt(after.db.pubs, b.ids, b.targets, i, b.scope, None);
      OpenIdUnique(after.db.pubs, TargetKey(a.targets[i], a.scope), a.ids[i], b.ids[i]);
    }
  }

  /**
   A step raises exactly when it is about to create a row that may not be, or by now
   exists, or to open a row that is gone; the latter never in a run without deletes.
   */
  lemma RaisesExactly(c: Catalog, db: Db, j: Job, stale: bool)
    requires Running(j)
    ensures AdvanceJob(c, db, j, stale).1.raised <==>
            || (j.phase == Saw(None) && (!Publishable(c, NextTarget(j), j.scope)
                                         || FindKey(db.pubs, TargetKey(NextTarget(j), j.scope)).Some?))
            || (j.phase.Saw? && j.phase.existing.Some? && forall p :: p in db.pubs ==> p.id != j.phase.existing.value)
    ensures AdvanceJob(c, db, j, stale).1.raised && JobOk(db.pubs, j) ==> j.phase == Saw(None)
  {
    assert KeyOf(NewRow(NextTarget(j), j.scope, j.setId)) == TargetKey(NextTarget(j), j.scope);
    if j.phase.Saw? && j.phase.existing.Some? {
      assert HasId(db.pubs, j.phase.existing.value) <==> exists p :: p in db.pubs && p.id == j.phase.existing.value;
    }
  }

  // ---------------------------------------------------------------- repeating

  lemma EnsureOnOpenReturns(c: Catalog, db: Db, t: Target, s: Scope, setId: Option<nat>, id: nat)
    requires KeysUnique(db.pubs) && Open(db.pubs, id, TargetKey(t, s), None)
    ensures Ensure(c, db, t, s, setId).1 == Done(id)
  {
    var i :| 0 <= i < |db.pubs| && db.pubs[i].id == id && KeyOf(db.pubs[i]) == TargetKey(t, s);
    FindKeyFinds(db.pubs, i);
  }

  lemma {:induction false} EnsureAllOnOpenReturns(c: Catalog, db: Db, ts: seq<Target>, n: nat, s: Scope,
      setId: Option<nat>, ids: seq<nat>)
    requires PubInv(db) && n <= |ts| == |ids|
    requires forall i {:trigger OpenAt(db.pubs, ids, ts, i, s, None)} :: 0 <= i < |ts| ==>
        OpenAt(db.pubs, ids, ts, i, s, None)
    ensures EnsureAll(c, db, ts[..n], s, setId).1 == Done(ids[..n])
    decreases n
  {
    hide PubInv, Open, Ensure;
    if n > 0 {
      var k := n - 1;
      EnsureAllOnOpenReturns(c, db, ts, k, s, setId, ids);
      EnsureAllKeepsInv(c, db, ts[..k], s, setId);
      EnsureAllKeeps(c, db, ts[..k], s, setId);
      var before := EnsureAll(c, db, ts[..k], s, setId).0;
      assert OpenAt(db.pubs, ids, ts, k, s, None);
      OpenKept(db.pubs, before.pubs, ids[k], TargetKey(ts[k], s));
      EnsureOnOpenReturns(c, before, ts[k], s, setId, ids[k]);
      EnsureAllNext(c, db, ts, k, s, setId);
      TakeNext(ids, k);
    }
  }

  /** Repeating: running a finished job's targets once more goes through and returns the very same ids. */
  lemma FinishedJobsRepeat(c: Catalog, sh: Shared, moves: seq<Move>, who: int)
    requires PubInv(sh.db) && JobsOk(sh) && forall k :: 0 <= k < |moves| ==> Quiet(moves[k])
    requires var after := SharedRun(c, sh, moves); who in after.jobs && Finished(after.jobs[who])
    ensures var after := SharedRun(c, sh, moves);
            var j := after.jobs[who];
            EnsureAll(c, after.db, j.targets, j.scope, j.setId).1 == Done(j.ids)
  {
    var after := SharedRun(c, sh, moves);
    var j := after.jobs[who];
    SharedRunKeepsInv(c, sh, moves);
    forall i | 0 <= i < |j.targets| ensures OpenAt(after.db.pubs, j.ids, j.targets, i, j.scope, None) {
      FinishedJobsCover(c, sh, moves, who, i);
    }
    EnsureAllOnOpenReturns(c, after.db, j.targets, |j.targets|, j.scope, j.setId, j.ids);
    assert j.targets[..|j.targets|] == j.targets && j.ids[..|j.ids|] == j.ids;
  }
}
