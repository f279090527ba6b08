/**
 Publishing questionnaires to sessions (db.py): create, publish, expand a set,
 open or close, delete. Each row write commits on its own.
 */
module Publications {
  import opened Tables
  import opened Questionnaires

  datatype QuestionnaireSet = QuestionnaireSet(active: bool, items: seq<nat>)

  /** The tables publishing only reads. `members` holds (group, student) pairs; a set lists its items in order. */
  datatype Catalog = Catalog(questionnaires: map<nat, Questionnaire>,
                             sets: map<nat, QuestionnaireSet>, sessions: set<nat>,
                             groups: set<nat>, students: set<nat>, members: set<(nat, nat)>)

  /** `answered`: the questionnaire, session and stage of every submission. */
  datatype Db = Db(pubs: seq<Publication>, nextId: nat, answered: set<(nat, nat, Stage)>)

  datatype Outcome<T> = Done(value: T) | Raised

  /** Who a publication is for; 0 stands for "everyone". */
  datatype Scope = Scope(session: nat, group: nat, user: nat)

  datatype Target = Target(questionnaire: nat, stage: Stage)

  /** The columns of the unique index, NULL scopes coalesced to 0. */
  datatype Key = Key(questionnaire: nat, session: nat, stage: Stage, group: nat, user: nat)

  function Coalesce(o: Option<nat>): nat { if o.Some? then o.value else 0 }

  function Nullable(n: nat): Option<nat> { if n == 0 then None else Some(n) }

  function KeyOf(p: Publication): Key {
    Key(p.questionnaire, p.session, p.stage, Coalesce(p.group), Coalesce(p.user))
  }

  function TargetKey(t: Target, s: Scope): Key { Key(t.questionnaire, s.session, t.stage, s.group, s.user) }

  predicate Allows(timing: Timing, stage: Stage) {
    match stage case Pre => !timing.OnlyPost? case Post => !timing.OnlyPre?
  }

  function StagesOf(timing: Timing): (stages: seq<Stage>)
    ensures forall stage :: stage in stages <==> Allows(timing, stage)
  {
    match timing
    case Both =>
      assert [Pre, Post][0].Pre? && [Pre, Post][1].Post?;
      [Pre, Post]
    case OnlyPre => [Pre]
    case OnlyPost => [Post]
  }

  /** The group and the student exist, and the student is in the group when both are given. */
  predicate ScopeValid(c: Catalog, s: Scope) {
    && (s.group != 0 ==> s.group in c.groups)
    && (s.user != 0 ==> s.user in c.students)
    && (s.group != 0 && s.user != 0 ==> (s.group, s.user) in c.members)
  }

  predicate Publishable(c: Catalog, t: Target, s: Scope) {
    && t.questionnaire in c.questionnaires && c.questionnaires[t.questionnaire].active
    && Allows(c.questionnaires[t.questionnaire].timing, t.stage)
    && s.session in c.sessions && ScopeValid(c, s)
  }

  // ---------------------------------------------------------------- row writes

  function FindKey(pubs: seq<Publication>, key: Key): (id: Option<nat>)
    ensures id.None? <==> forall i :: 0 <= i < |pubs| ==> KeyOf(pubs[i]) != key
    ensures id.Some? ==> exists i :: 0 <= i < |pubs| && KeyOf(pubs[i]) == key && pubs[i].id == id.value
  {
    if pubs == [] then None else if KeyOf(pubs[0]) == key then Some(pubs[0].id) else
      var rest := FindKey(pubs[1..], key);
      assert forall i :: 0 <= i < |pubs[1..]| ==> pubs[1..][i] == pubs[i + 1];
      rest
  }

  /** INSERT, which the unique index may refuse. */
  function InsertPublication(db: Db, p: Publication): (Db, Outcome<nat>) {
    if FindKey(db.pubs, KeyOf(p)).Some? then (db, Raised)
    else (db.(pubs := db.pubs + [p.(id := db.nextId)], nextId := db.nextId + 1), Done(db.nextId))
  }

  function Switched(p: Publication, enabled: bool, setId: Option<nat>): Publication {
    p.(enabled := enabled, setId := if setId.Some? then setId else p.setId)
  }

  /** UPDATE of the status, and of the set id when one is given, by row id. */
  function SwitchRow(pubs: seq<Publication>, id: nat, enabled: bool, setId: Option<nat>): (r: seq<Publication>)
    ensures |r| == |pubs|
    ensures forall i :: 0 <= i < |r| ==> r[i] == if pubs[i].id == id then Switched(pubs[i], enabled, setId) else pubs[i]
  {
    seq(|pubs|, i requires 0 <= i < |pubs| => if pubs[i].id == id then Switched(pubs[i], enabled, setId) else pubs[i])
  }

  function RemoveRow(pubs: seq<Publication>, id: nat): (r: seq<Publication>)
    ensures forall p :: p in r <==> p in pubs && p.id != id
  {
    if pubs == [] then [] else
      RemoveRow(pubs[..|pubs| - 1], id) + (if pubs[|pubs| - 1].id == id then [] else [pubs[|pubs| - 1]])
  }

  function NewRow(t: Target, s: Scope, setId: Option<nat>): Publication {
    Publication(0, t.questionnaire, s.session, t.stage, Nullable(s.group), Nullable(s.user), true, setId)
  }

  /** create_questionnaire_publication; `stale`: its own lookup ran before a concurrent insert. */
  function Create(c: Catalog, db: Db, t: Target, s: Scope, setId: Option<nat>, stale: bool): (Db, Outcome<nat>) {
    if !Publishable(c, t, s) || (!stale && FindKey(db.pubs, TargetKey(t, s)).Some?) then (db, Raised)
    else InsertPublication(db, NewRow(t, s, setId))
  }

  /** One step of publish and of expand: open the row that exists, else create it. */
  function Ensure(c: Catalog, db: Db, t: Target, s: Scope, setId: Option<nat>): (Db, Outcome<nat>) {
    var existing := FindKey(db.pubs, TargetKey(t, s));
    if existing.Some? then (db.(pubs := SwitchRow(db.pubs, existing.value, true, setId)), Done(existing.value))
    else Create(c, db, t, s, setId, false)
  }

  /** The steps in order, stopping where one raises; earlier rows stay. */
  function EnsureAll(c: Catalog, db: Db, ts: seq<Target>, s: Scope, setId: Option<nat>): (r: (Db, Outcome<seq<nat>>))
    ensures r.1.Done? ==> |r.1.value| == |ts|
  {
    if ts == [] then (db, Done([])) else
      var before := EnsureAll(c, db, ts[..|ts| - 1], s, setId);
      if before.1.Raised? then before else
        var last := Ensure(c, before.0, ts[|ts| - 1], s, setId);
        (last.0, if last.1.Raised? then Raised else Done(before.1.value + [last.1.value]))
  }

  function StageTargets(q: nat, stages: seq<Stage>): (ts: seq<Target>)
    ensures |ts| == |stages| && forall i :: 0 <= i < |ts| ==> ts[i] == Target(q, stages[i])
  {
    seq(|stages|, i requires 0 <= i < |stages| => Target(q, stages[i]))
  }

  /** The item is an active questionnaire whose timing allows the stage. */
  predicate ActiveIn(c: Catalog, items: seq<nat>, t: Target) {
    && t.questionnaire in items && t.questionnaire in c.questionnaires
    && c.questionnaires[t.questionnaire].active && Allows(c.questionnaires[t.questionnaire].timing, t.stage)
  }

  /** The active items of a set, each in every stage its timing allows. */
  function SetTargets(c: Catalog, items: seq<nat>): (ts: seq<Target>)
    ensures forall t :: t in ts <==> ActiveIn(c, items, t)
  {
    if items == [] then [] else
      var q := items[|items| - 1];
      SetTargets(c, items[..|items| - 1]) +
      if q in c.questionnaires && c.questionnaires[q].active
      then StageTargets(q, StagesOf(c.questionnaires[q].timing)) else []
  }

  /** expand_questionnaire_set_for_session. */
  function Expand(c: Catalog, db: Db, setId: nat, s: Scope): (Db, Outcome<seq<nat>>) {
    if setId !in c.sets || !c.sets[setId].active || s.session !in c.sessions then (db, Raised)
    else EnsureAll(c, db, SetTargets(c, c.sets[setId].items), s, Some(setId))
  }

  /** publish_questionnaire_to_session; no stage asks for every stage the timing allows. */
  function Publish(c: Catalog, db: Db, q: nat, stage: Option<Stage>, s: Scope): (Db, Outcome<seq<nat>>) {
    if q !in c.questionnaires || s.session !in c.sessions then (db, Raised)
    else
      var stages := if stage.Some? then [stage.value] else StagesOf(c.questionnaires[q].timing);
      EnsureAll(c, db, StageTargets(q, stages), s, None)
  }

  predicate HasId(pubs: seq<Publication>, id: nat) { exists i :: 0 <= i < |pubs| && pubs[i].id == id }

  /** update_questionnaire_publication. */
  function SetStatus(db: Db, id: nat, enabled: bool): (Db, Outcome<bool>) {
    if HasId(db.pubs, id) then (db.(pubs := SwitchRow(db.pubs, id, enabled, None)), Done(true)) else (db, Raised)
  }

  predicate Answered(db: Db, p: Publication) { (p.questionnaire, p.session, p.stage) in db.answered }

  /** delete_questionnaire_publication: a publication with submissions is closed instead, and the call still raises. */
  function Delete(db: Db, id: nat): (Db, Outcome<bool>) {
    if !HasId(db.pubs, id) then (db, Raised)
    else if exists i :: 0 <= i < |db.pubs| && db.pubs[i].id == id && Answered(db, db.pubs[i]) then
      (db.(pubs := SwitchRow(db.pubs, id, false, None)), Raised)
    else (db.(pubs := RemoveRow(db.pubs, id)), Done(true))
  }

  // ---------------------------------------------------------------- runs

  datatype Event =
    | CreateEv(t: Target, s: Scope, setId: Option<nat>, stale: bool)
    | PublishEv(q: nat, asked: Option<Stage>, s: Scope)
    | ExpandEv(questionnaireSet: nat, s: Scope)
    | StatusEv(id: nat, enabled: bool)
    | DeleteEv(id: nat)
    | SubmitEv(q: nat, session: nat, stage: Stage)

  function Apply(c: Catalog, db: Db, e: Event): Db {
    match e
    case CreateEv(t, s, setId, stale) => Create(c, db, t, s, setId, stale).0
    case PublishEv(q, stage, s) => Publish(c, db, q, stage, s).0
    case ExpandEv(setId, s) => Expand(c, db, setId, s).0
    case StatusEv(id, enabled) => SetStatus(db, id, enabled).0
    case DeleteEv(id) => Delete(db, id).0
    case SubmitEv(q, session, stage) => db.(answered := db.answered + {(q, session, stage)})
  }

  function ApplyAll(c: Catalog, db: Db, es: seq<Event>): Db {
    if es == [] then db else Apply(c, ApplyAll(c, db, es[..|es| - 1]), es[|es| - 1])
  }

  predicate KeysUnique(pubs: seq<Publication>) {
    forall i, j :: 0 <= i < j < |pubs| ==> KeyOf(pubs[i]) != KeyOf(pubs[j])
  }

  predicate IdsUnique(pubs: seq<Publication>, nextId: nat) {
    && (forall i :: 0 <= i < |pubs| ==> pubs[i].id < nextId)
    && (forall i, j :: 0 <= i < j < |pubs| ==> pubs[i].id != pubs[j].id)
  }

  predicate PubInv(db: Db) { KeysUnique(db.pubs) && IdsUnique(db.pubs, db.nextId) }

  lemma CreateKeepsInv(c: Catalog, db: Db, t: Target, s: Scope, setId: Option<nat>, stale: bool)
    requires PubInv(db)
    ensures PubInv(Create(c, db, t, s, setId, stale).0)
  {
    assert KeyOf(NewRow(t, s, setId)) == TargetKey(t, s);
  }

  lemma SwitchKeepsInv(db: Db, id: nat, enabled: bool, setId: Option<nat>)
    requires PubInv(db)
    ensures PubInv(db.(pubs := SwitchRow(db.pubs, id, enabled, setId)))
  {
    var after := SwitchRow(db.pubs, id, enabled, setId);
    assert forall i :: 0 <= i < |after| ==> KeyOf(after[i]) == KeyOf(db.pubs[i]) && after[i].id == db.pubs[i].id;
  }

  lemma {:induction false} RemoveKeepsInv(pubs: seq<Publication>, nextId: nat, id: nat)
    requires KeysUnique(pubs) && IdsUnique(pubs, nextId)
    ensures KeysUnique(RemoveRow(pubs, id)) && IdsUnique(RemoveRow(pubs, id), nextId)
  {
    if pubs != [] {
      var init, last := pubs[..|pubs| - 1], pubs[|pubs| - 1];
      RemoveKeepsInv(init, nextId, id);
      var kept := RemoveRow(init, id);
      forall i | 0 <= i < |kept|
        ensures KeyOf(kept[i]) != KeyOf(last) && kept[i].id != last.id
      {
        assert kept[i] in init;
      }
      AppendKeepsInv(kept, nextId, last);
    }
  }

  lemma AppendKeepsInv(pubs: seq<Publication>, nextId: nat, p: Publication)
    requires KeysUnique(pubs) && IdsUnique(pubs, nextId) && p.id < nextId
    requires forall i :: 0 <= i < |pubs| ==> KeyOf(pubs[i]) != KeyOf(p) && pubs[i].id != p.id
    ensures KeysUnique(pubs + [p]) && IdsUnique(pubs + [p], nextId)
  {}

  lemma {:induction false} EnsureAllKeepsInv(c: Catalog, db: Db, ts: seq<Target>, s: Scope, setId: Option<nat>)
    requires PubInv(db)
    ensures PubInv(EnsureAll(c, db, ts, s, setId).0)
  {
    if ts != [] {
      EnsureAllKeepsInv(c, db, ts[..|ts| - 1], s, setId);
      var before := EnsureAll(c, db, ts[..|ts| - 1], s, setId).0;
      var t := ts[|ts| - 1];
      var existing := FindKey(before.pubs, TargetKey(t, s));
      if existing.Some? {
        SwitchKeepsInv(before, existing.value, true, setId);
      } else {
        CreateKeepsInv(c, before, t, s, setId, false);
      }
    }
  }

  lemma ApplyKeepsInv(c: Catalog, db: Db, e: Event)
    requires PubInv(db)
    ensures PubInv(Apply(c, db, e))
  {
    hide KeysUnique, IdsUnique, EnsureAll, Create, SwitchRow, RemoveRow;
    match e
    case CreateEv(t, s, setId, stale) => CreateKeepsInv(c, db, t, s, setId, stale);
    case PublishEv(q, stage, s) =>
      if q in c.questionnaires && s.session in c.sessions {
        var stages := if stage.Some? then [stage.value] else StagesOf(c.questionnaires[q].timing);
        EnsureAllKeepsInv(c, db, StageTargets(q, stages), s, None);
      }
    case ExpandEv(setId, s) =>
      if setId in c.sets { EnsureAllKeepsInv(c, db, SetTargets(c, c.sets[setId].items), s, Some(setId)); }
    case StatusEv(id, enabled) => SwitchKeepsInv(db, id, enabled, None);
    case DeleteEv(id) => SwitchKeepsInv(db, id, false, None); RemoveKeepsInv(db.pubs, db.nextId, id);
    case SubmitEv(_, _, _) =>
  }

  /** After any run, whatever the races, a questionnaire is published at most once per session, stage and scope. */
  lemma {:induction false} RunKeepsInv(c: Catalog, db: Db, es: seq<Event>)
    requires PubInv(db)
    ensures PubInv(ApplyAll(c, db, es))
  {
    if es != [] {
      RunKeepsInv(c, db, es[..|es| - 1]);
      ApplyKeepsInv(c, ApplyAll(c, db, es[..|es| - 1]), es[|es| - 1]);
    }
  }

  // ---------------------------------------------------------------- what publishing achieves

  /** Row `id` publishes this key, open, and under the set when one is given. */
  predicate Open(pubs: seq<Publication>, id: nat, key: Key, setId: Option<nat>) {
    exists i :: 0 <= i < |pubs| && pubs[i].id == id && KeyOf(pubs[i]) == key && pubs[i].enabled
        && (setId.Some? ==> pubs[i].setId == setId)
  }

  lemma EnsureOpens(c: Catalog, db: Db, t: Target, s: Scope, setId: Option<nat>)
    requires PubInv(db) && Ensure(c, db, t, s, setId).1.Done?
    ensures Open(Ensure(c, db, t, s, setId).0.pubs, Ensure(c, db, t, s, setId).1.value, TargetKey(t, s), setId)
  {
    var after := Ensure(c, db, t, s, setId).0.pubs;
    var existing := FindKey(db.pubs, TargetKey(t, s));
    if existing.Some? {
      var i :| 0 <= i < |db.pubs| && KeyOf(db.pubs[i]) == TargetKey(t, s) && db.pubs[i].id == existing.value;
      assert KeyOf(after[i]) == TargetKey(t, s) && after[i].enabled;
    } else {
      assert KeyOf(after[|db.pubs|]) == TargetKey(t, s);
    }
  }

  lemma EnsureKeepsOpen(c: Catalog, db: Db, t: Target, s: Scope, setId: Option<nat>, id: nat, key: Key)
    requires Open(db.pubs, id, key, setId)
    ensures Open(Ensure(c, db, t, s, setId).0.pubs, id, key, setId)
  {
    hide Publishable, FindKey, NewRow;
    var after := Ensure(c, db, t, s, setId).0.pubs;
    var i :| 0 <= i < |db.pubs| && db.pubs[i].id == id && KeyOf(db.pubs[i]) == key && db.pubs[i].enabled
      && (setId.Some? ==> db.pubs[i].setId == setId);
    assert after[i].id == id && KeyOf(after[i]) == key;
  }

  /** The i-th target is open under the i-th id. */
  predicate OpenAt(pubs: seq<Publication>, ids: seq<nat>, ts: seq<Target>, i: nat, s: Scope, setId: Option<nat>)
    requires i < |ts| && i < |ids|
  {
    Open(pubs, ids[i], TargetKey(ts[i], s), setId)
  }

  /** Steps that all went through, taken apart at the last one. */
  lemma EnsureAllDone(c: Catalog, db: Db, ts: seq<Target>, n: nat, s: Scope, setId: Option<nat>)
    requires n < |ts| && EnsureAll(c, db, ts[..n + 1], s, setId).1.Done?
    ensures var before, after := EnsureAll(c, db, ts[..n], s, setId), EnsureAll(c, db, ts[..n + 1], s, setId);
            && before.1.Done? && Ensure(c, before.0, ts[n], s, setId).1.Done?
            && after.0 == Ensure(c, before.0, ts[n], s, setId).0
            && after.1.value[n] == Ensure(c, before.0, ts[n], s, setId).1.value
            && after.1.value[..n] == before.1.value
  {
    assert ts[..n + 1][..n] == ts[..n];
    EnsureAllNext(c, db, ts, n, s, setId);
  }

  /** Of the first n steps, which went through, the i-th left its target open. */
  predicate OpenAfter(c: Catalog, db: Db, ts: seq<Target>, n: nat, s: Scope, setId: Option<nat>, i: nat)
    requires i < n <= |ts|
  {
    var r := EnsureAll(c, db, ts[..n], s, setId);
    r.1.Done? ==> Open(r.0.pubs, r.1.value[i], TargetKey(ts[i], s), setId)
  }

  lemma OpensLast(c: Catalog, db: Db, ts: seq<Target>, k: nat, s: Scope, setId: Option<nat>)
    requires PubInv(db) && k < |ts|
    ensures OpenAfter(c, db, ts, k + 1, s, setId, k)
  {
    if EnsureAll(c, db, ts[..k + 1], s, setId).1.Done? {
      EnsureAllDone(c, db, ts, k, s, setId);
      EnsureAllKeepsInv(c, db, ts[..k], s, setId);
      EnsureOpens(c, EnsureAll(c, db, ts[..k], s, setId).0, ts[k], s, setId);
    }
  }

  lemma OpensStay(c: Catalog, db: Db, ts: seq<Target>, k: nat, s: Scope, setId: Option<nat>, i: nat)
    requires i < k < |ts| && OpenAfter(c, db, ts, k, s, setId, i)
    ensures OpenAfter(c, db, ts, k + 1, s, setId, i)
  {
    if EnsureAll(c, db, ts[..k + 1], s, setId).1.Done? {
      EnsureAllDone(c, db, ts, k, s, setId);
      var before := EnsureAll(c, db, ts[..k], s, setId);
      assert EnsureAll(c, db, ts[..k + 1], s, setId).1.value[i] == before.1.value[i];
      EnsureKeepsOpen(c, before.0, ts[k], s, setId, before.1.value[i], TargetKey(ts[i], s));
    }
  }

  lemma {:induction false} EnsureAllOpensAt(c: Catalog, db: Db, ts: seq<Target>, n: nat, s: Scope, setId: Option<nat>,
      i: nat)
    requires PubInv(db) && i < n <= |ts|
    ensures OpenAfter(c, db, ts, n, s, setId, i)
    decreases n
  {
    hide EnsureAll, PubInv, OpenAfter;
    if i < n - 1 {
      EnsureAllOpensAt(c, db, ts, n - 1, s, setId, i);
      OpensStay(c, db, ts, n - 1, s, setId, i);
    } else {
      OpensLast(c, db, ts, i, s, setId);
    }
  }

  /** When no step raised, every target is open, under the id returned for it. */
  lemma EnsureAllOpens(c: Catalog, db: Db, ts: seq<Target>, s: Scope, setId: Option<nat>)
    requires PubInv(db) && EnsureAll(c, db, ts, s, setId).1.Done?
    ensures var r := EnsureAll(c, db, ts, s, setId);
            forall i {:trigger OpenAt(r.0.pubs, r.1.value, ts, i, s, setId)} :: 0 <= i < |ts| ==>
                OpenAt(r.0.pubs, r.1.value, ts, i, s, setId)
  {
    forall i | 0 <= i < |ts|
      ensures OpenAt(EnsureAll(c, db, ts, s, setId).0.pubs, EnsureAll(c, db, ts, s, setId).1.value, ts, i, s, setId)
    {
      assert ts[..|ts|] == ts;
      EnsureAllOpensAt(c, db, ts, |ts|, s, setId, i);
    }
  }

  /** With unique keys, the lookup finds the row. */
  lemma {:induction false} FindKeyFinds(pubs: seq<Publication>, i: nat)
    requires KeysUnique(pubs) && i < |pubs|
    ensures FindKey(pubs, KeyOf(pubs[i])) == Some(pubs[i].id)
  {
    if i > 0 {
      FindKeyFinds(pubs[1..], i - 1);
      assert pubs[1..][i - 1] == pubs[i];
    }
  }

  /** With unique ids, writing a row's own values back changes nothing. */
  lemma SwitchSame(pubs: seq<Publication>, nextId: nat, i: nat, setId: Option<nat>)
    requires IdsUnique(pubs, nextId) && i < |pubs| && pubs[i].enabled && (setId.Some? ==> pubs[i].setId == setId)
    ensures SwitchRow(pubs, pubs[i].id, true, setId) == pubs
  {
    assert forall j :: 0 <= j < |pubs| && j != i ==> pubs[j].id != pubs[i].id;
  }

  /** On a target already open, a step writes nothing new and returns the same id. */
  lemma EnsureOnOpen(c: Catalog, db: Db, t: Target, s: Scope, setId: Option<nat>, id: nat)
    requires PubInv(db) && Open(db.pubs, id, TargetKey(t, s), setId)
    ensures Ensure(c, db, t, s, setId) == (db, Done(id))
  {
    var i :| 0 <= i < |db.pubs| && db.pubs[i].id == id && KeyOf(db.pubs[i]) == TargetKey(t, s) && db.pubs[i].enabled
      && (setId.Some? ==> db.pubs[i].setId == setId);
    assert FindKey(db.pubs, TargetKey(t, s)) == Some(id) by { FindKeyFinds(db.pubs, i); }
    assert SwitchRow(db.pubs, id, true, setId) == db.pubs by { SwitchSame(db.pubs, db.nextId, i, setId); }
  }

  /** The step changes nothing and returns this id. */
  predicate Settled(c: Catalog, db: Db, t: Target, s: Scope, setId: Option<nat>, id: nat) {
    Ensure(c, db, t, s, setId) == (db, Done(id))
  }

  lemma EnsureAllSettles(c: Catalog, db: Db, ts: seq<Target>, i: nat, s: Scope, setId: Option<nat>, ids: seq<nat>,
      id: nat)
    requires i < |ts| && EnsureAll(c, db, ts[..i], s, setId) == (db, Done(ids)) && Settled(c, db, ts[i], s, setId, id)
    ensures EnsureAll(c, db, ts[..i + 1], s, setId) == (db, Done(ids + [id]))
  {
    EnsureAllNext(c, db, ts, i, s, setId);
  }

  /** Settled steps change nothing together. */
  lemma {:induction false} EnsureAllStable(c: Catalog, db: Db, ts: seq<Target>, k: nat, s: Scope, setId: Option<nat>,
      ids: seq<nat>)
    requires k <= |ts| == |ids|
    requires forall i {:trigger Settled(c, db, ts[i], s, setId, ids[i])} :: 0 <= i < |ts| ==>
        Settled(c, db, ts[i], s, setId, ids[i])
    ensures EnsureAll(c, db, ts[..k], s, setId) == (db, Done(ids[..k]))
  {
    if k > 0 {
      EnsureAllStable(c, db, ts, k - 1, s, setId, ids);
      EnsureAllSettles(c, db, ts, k - 1, s, setId, ids[..k - 1], ids[k - 1]);
      TakeNext(ids, k - 1);
    }
  }

  /** Repeating a run of steps that did not raise changes nothing and returns the same ids. */
  lemma EnsureAllRepeats(c: Catalog, db: Db, ts: seq<Target>, s: Scope, setId: Option<nat>)
    requires PubInv(db) && EnsureAll(c, db, ts, s, setId).1.Done?
    ensures EnsureAll(c, EnsureAll(c, db, ts, s, setId).0, ts, s, setId) == EnsureAll(c, db, ts, s, setId)
  {
    var r := EnsureAll(c, db, ts, s, setId);
    EnsureAllOpens(c, db, ts, s, setId);
    EnsureAllKeepsInv(c, db, ts, s, setId);
    forall i | 0 <= i < |ts|
      ensures Settled(c, r.0, ts[i], s, setId, r.1.value[i])
    {
      assert OpenAt(r.0.pubs, r.1.value, ts, i, s, setId);
      EnsureOnOpen(c, r.0, ts[i], s, setId, r.1.value[i]);
    }
    EnsureAllStable(c, r.0, ts, |ts|, s, setId, r.1.value);
    assert ts[..|ts|] == ts && r.1.value[..|ts|] == r.1.value;
  }

  /** Expanding a set opens every active item in every stage it allows, and expanding again changes nothing. */
  lemma ExpandCoversAndRepeats(c: Catalog, db: Db, setId: nat, s: Scope)
    requires PubInv(db) && Expand(c, db, setId, s).1.Done?
    ensures var r := Expand(c, db, setId, s);
            && (forall t :: ActiveIn(c, c.sets[setId].items, t) ==>
                  exists id :: id in r.1.value && Open(r.0.pubs, id, TargetKey(t, s), Some(setId)))
            && Expand(c, r.0, setId, s) == r
  {
    var ts := SetTargets(c, c.sets[setId].items);
    var r := Expand(c, db, setId, s);
    EnsureAllOpens(c, db, ts, s, Some(setId));
    EnsureAllRepeats(c, db, ts, s, Some(setId));
    forall t | ActiveIn(c, c.sets[setId].items, t)
      ensures exists id :: id in r.1.value && Open(r.0.pubs, id, TargetKey(t, s), Some(setId))
    {
      var i :| 0 <= i < |ts| && ts[i] == t;
      assert OpenAt(r.0.pubs, r.1.value, ts, i, s, Some(setId));
      assert r.1.value[i] in r.1.value;
    }
  }

  /** Publishing again changes nothing either. */
  lemma PublishRepeats(c: Catalog, db: Db, q: nat, stage: Option<Stage>, s: Scope)
    requires PubInv(db) && Publish(c, db, q, stage, s).1.Done?
    ensures Publish(c, Publish(c, db, q, stage, s).0, q, stage, s) == Publish(c, db, q, stage, s)
  {
    var stages := if stage.Some? then [stage.value] else StagesOf(c.questionnaires[q].timing);
    EnsureAllRepeats(c, db, StageTargets(q, stages), s, None);
  }

  /** The key has a publication. */
  predicate Published(db: Db, key: Key) { FindKey(db.pubs, key).Some? }

  lemma EnsurePublishes(c: Catalog, db: Db, t: Target, s: Scope, setId: Option<nat>, key: Key)
    ensures Ensure(c, db, t, s, setId).1.Done? <==> Published(db, TargetKey(t, s)) || Publishable(c, t, s)
    ensures Published(Ensure(c, db, t, s, setId).0, key) <==>
            Published(db, key) || (key == TargetKey(t, s) && Publishable(c, t, s))
  {
    var after := Ensure(c, db, t, s, setId).0.pubs;
    assert KeyOf(NewRow(t, s, setId)) == TargetKey(t, s);
    hide Publishable, NewRow, KeyOf;
    hide FindKey;
    assert forall i :: 0 <= i < |db.pubs| ==> KeyOf(after[i]) == KeyOf(db.pubs[i]);
    assert |after| > |db.pubs| ==> KeyOf(after[|db.pubs|]) == TargetKey(t, s);
  }

  /** Steps only add publications that may be published, and remove none. */
  lemma {:induction false} EnsureAllPublishes(c: Catalog, db: Db, ts: seq<Target>, s: Scope, setId: Option<nat>,
      t: Target)
    ensures Published(db, TargetKey(t, s)) ==> Published(EnsureAll(c, db, ts, s, setId).0, TargetKey(t, s))
    ensures Published(EnsureAll(c, db, ts, s, setId).0, TargetKey(t, s)) ==>
        Published(db, TargetKey(t, s)) || Publishable(c, t, s)
  {
    if ts != [] {
      EnsureAllPublishes(c, db, ts[..|ts| - 1], s, setId, t);
      EnsurePublishes(c, EnsureAll(c, db, ts[..|ts| - 1], s, setId).0, ts[|ts| - 1], s, setId, TargetKey(t, s));
    }
  }

  /** The target is published already, or may be. */
  predicate Attainable(c: Catalog, db: Db, t: Target, s: Scope) {
    Published(db, TargetKey(t, s)) || Publishable(c, t, s)
  }

  lemma EnsureAllStep(c: Catalog, db: Db, init: seq<Target>, t: Target, s: Scope, setId: Option<nat>)
    ensures EnsureAll(c, db, init + [t], s, setId).1.Done? <==>
        EnsureAll(c, db, init, s, setId).1.Done? && Attainable(c, db, t, s)
  {
    assert (init + [t])[..|init|] == init;
    EnsureAllPublishes(c, db, init, s, setId, t);
    EnsurePublishes(c, EnsureAll(c, db, init, s, setId).0, t, s, setId, TargetKey(t, s));
  }

  /** A run of steps goes through exactly when every target is published already or may be published. */
  lemma {:induction false} EnsureAllSucceedsExactly(c: Catalog, db: Db, ts: seq<Target>, s: Scope, setId: Option<nat>)
    ensures EnsureAll(c, db, ts, s, setId).1.Done? <==> forall t :: t in ts ==> Attainable(c, db, t, s)
  {
    if ts != [] {
      var init, t := ts[..|ts| - 1], ts[|ts| - 1];
      assert ts == init + [t];
      EnsureAllSucceedsExactly(c, db, init, s, setId);
      EnsureAllStep(c, db, init, t, s, setId);
    }
  }

  /**
   Expanding goes through exactly when the set is active, the session exists and
   the scope is valid, or nothing is left to create.
   */
  lemma ExpandSucceedsExactly(c: Catalog, db: Db, setId: nat, s: Scope)
    ensures Expand(c, db, setId, s).1.Done? <==>
            && setId in c.sets && c.sets[setId].active && s.session in c.sessions
            && (ScopeValid(c, s) || forall t :: t in SetTargets(c, c.sets[setId].items) ==>
                Published(db, TargetKey(t, s)))
  {
    if setId in c.sets && c.sets[setId].active && s.session in c.sessions {
      var ts := SetTargets(c, c.sets[setId].items);
      EnsureAllSucceedsExactly(c, db, ts, s, Some(setId));
      assert forall t :: t in ts ==> (Publishable(c, t, s) <==> ScopeValid(c, s));
    }
  }

  // ---------------------------------------------------------------- each operation, column by column

  /** The row publishes this questionnaire to this session, stage, group and student; 0 stands for no limit. */
  predicate RowFor(p: Publication, t: Target, s: Scope) {
    && p.questionnaire == t.questionnaire && p.session == s.session && p.stage == t.stage
    && p.group == (if s.group == 0 then None else Some(s.group))
    && p.user == (if s.user == 0 then None else Some(s.user))
  }

  /** Rows never limit to group or student 0. */
  predicate NoZeroScope(pubs: seq<Publication>) {
    forall i :: 0 <= i < |pubs| ==> pubs[i].group != Some(0) && pubs[i].user != Some(0)
  }

  /** The questionnaire can be filled in at the stage. */
  predicate StageFits(timing: Timing, stage: Stage) {
    timing == Both || (timing == OnlyPre && stage == Pre) || (timing == OnlyPost && stage == Post)
  }

  /** What the checks of a create ask of the tables. */
  predicate MayCreate(c: Catalog, t: Target, s: Scope) {
    && t.questionnaire in c.questionnaires && c.questionnaires[t.questionnaire].active
    && StageFits(c.questionnaires[t.questionnaire].timing, t.stage)
    && s.session in c.sessions
    && (s.group == 0 || s.group in c.groups) && (s.user == 0 || s.user in c.students)
    && (s.group == 0 || s.user == 0 || (s.group, s.user) in c.members)
  }

  lemma RowForExactly(p: Publication, t: Target, s: Scope)
    requires p.group != Some(0) && p.user != Some(0)
    ensures KeyOf(p) == TargetKey(t, s) <==> RowFor(p, t, s)
  {}

  /**
   Creating goes through exactly when the checks pass and no row has the same
   questionnaire, session, stage and scope; it adds one open row, and otherwise
   nothing changes.
   */
  lemma CreateExactly(c: Catalog, db: Db, t: Target, s: Scope, setId: Option<nat>, stale: bool)
    requires NoZeroScope(db.pubs)
    ensures var (after, r) := Create(c, db, t, s, setId, stale);
            && (r.Done? <==> MayCreate(c, t, s) && forall i :: 0 <= i < |db.pubs| ==> !RowFor(db.pubs[i], t, s))
            && (r.Raised? ==> after == db)
            && (r.Done? ==>
                  && r.value == db.nextId && after.nextId == db.nextId + 1 && after.answered == db.answered
                  && |after.pubs| == |db.pubs| + 1 && after.pubs[..|db.pubs|] == db.pubs
                  && RowFor(after.pubs[|db.pubs|], t, s) && after.pubs[|db.pubs|].id == db.nextId
                  && after.pubs[|db.pubs|].enabled && after.pubs[|db.pubs|].setId == setId)
            && NoZeroScope(after.pubs)
  {
    forall i | 0 <= i < |db.pubs| ensures KeyOf(db.pubs[i]) == TargetKey(t, s) <==> RowFor(db.pubs[i], t, s) {
      RowForExactly(db.pubs[i], t, s);
    }
    assert KeyOf(NewRow(t, s, setId)) == TargetKey(t, s);
    assert Publishable(c, t, s) <==> MayCreate(c, t, s);
  }

  /** Opening or closing: the one row gets the status, everything else stays; without such a row it raises. */
  lemma SetStatusExactly(db: Db, id: nat, enabled: bool)
    ensures var (after, r) := SetStatus(db, id, enabled);
            && (r.Done? <==> exists i :: 0 <= i < |db.pubs| && db.pubs[i].id == id)
            && |after.pubs| == |db.pubs| && after.nextId == db.nextId && after.answered == db.answered
            && forall i :: 0 <= i < |db.pubs| ==>
                 after.pubs[i] == if db.pubs[i].id == id then db.pubs[i].(enabled := enabled) else db.pubs[i]
  {}

  lemma EnsureTouchesOnly(c: Catalog, db: Db, t: Target, s: Scope, setId: Option<nat>, i: nat)
    requires PubInv(db) && i < |db.pubs| && KeyOf(db.pubs[i]) != TargetKey(t, s)
    ensures var after := Ensure(c, db, t, s, setId).0.pubs; i < |after| && after[i] == db.pubs[i]
  {
    var existing := FindKey(db.pubs, TargetKey(t, s));
    if existing.Some? {
      var k :| 0 <= k < |db.pubs| && KeyOf(db.pubs[k]) == TargetKey(t, s) && db.pubs[k].id == existing.value;
      assert db.pubs[i].id != db.pubs[k].id;
    }
  }

  /** Publishing and expanding touch no row but those of their targets. */
  lemma {:induction false} EnsureAllTouchesOnly(c: Catalog, db: Db, ts: seq<Target>, s: Scope, setId: Option<nat>,
      i: nat)
    requires PubInv(db) && i < |db.pubs| && forall t :: t in ts ==> KeyOf(db.pubs[i]) != TargetKey(t, s)
    ensures var after := EnsureAll(c, db, ts, s, setId).0.pubs; i < |after| && after[i] == db.pubs[i]
  {
    if ts != [] {
      var init := ts[..|ts| - 1];
      EnsureAllTouchesOnly(c, db, init, s, setId, i);
      EnsureAllKeepsInv(c, db, init, s, setId);
      hide PubInv, Ensure;
      EnsureTouchesOnly(c, EnsureAll(c, db, init, s, setId).0, ts[|ts| - 1], s, setId, i);
    }
  }

  /** The stages a publish is for: the one asked for, or all the questionnaire's timing has. */
  predicate StageMeant(timing: Timing, asked: Option<Stage>, stage: Stage) {
    if asked.Some? then stage == asked.value else StageFits(timing, stage)
  }

  /** A publish that goes through has the questionnaire open in exactly the stages meant, one id for each. */
  lemma PublishOpensExactly(c: Catalog, db: Db, q: nat, asked: Option<Stage>, s: Scope)
    requires PubInv(db) && Publish(c, db, q, asked, s).1.Done?
    ensures var (after, r) := Publish(c, db, q, asked, s);
            && q in c.questionnaires && s.session in c.sessions
            && (forall stage :: StageMeant(c.questionnaires[q].timing, asked, stage) ==>
                  exists id :: id in r.value && Open(after.pubs, id, Key(q, s.session, stage, s.group, s.user), None))
            && |r.value| == (if asked.Some? || c.questionnaires[q].timing != Both then 1 else 2)
  {
    var stages := if asked.Some? then [asked.value] else StagesOf(c.questionnaires[q].timing);
    var ts := StageTargets(q, stages);
    var r := Publish(c, db, q, asked, s);
    EnsureAllOpens(c, db, ts, s, None);
    forall stage | StageMeant(c.questionnaires[q].timing, asked, stage)
      ensures exists id :: id in r.1.value && Open(r.0.pubs, id, Key(q, s.session, stage, s.group, s.user), None)
    {
      assert Allows(c.questionnaires[q].timing, stage) <==> StageFits(c.questionnaires[q].timing, stage);
      assert stage in stages;
      var i :| 0 <= i < |stages| && stages[i] == stage;
      assert OpenAt(r.0.pubs, r.1.value, ts, i, s, None);
      assert r.1.value[i] in r.1.value;
    }
  }

  /** A publish succeeds exactly when questionnaire and session exist and each stage meant is published or may be. */
  lemma PublishSucceedsExactly(c: Catalog, db: Db, q: nat, asked: Option<Stage>, s: Scope)
    ensures Publish(c, db, q, asked, s).1.Done? <==>
            && q in c.questionnaires && s.session in c.sessions
            && forall stage :: StageMeant(c.questionnaires[q].timing, asked, stage) ==>
                 Published(db, Key(q, s.session, stage, s.group, s.user)) || MayCreate(c, Target(q, stage), s)
  {
    if q in c.questionnaires && s.session in c.sessions {
      var timing := c.questionnaires[q].timing;
      var stages := if asked.Some? then [asked.value] else StagesOf(timing);
      var ts := StageTargets(q, stages);
      EnsureAllSucceedsExactly(c, db, ts, s, None);
      forall stage ensures StageMeant(timing, asked, stage) <==> stage in stages {
        assert Allows(timing, stage) <==> StageFits(timing, stage);
      }
      forall t | t in ts ensures t.questionnaire == q && t.stage in stages {}
      forall stage | stage in stages ensures Target(q, stage) in ts {
        var i :| 0 <= i < |stages| && stages[i] == stage;
        assert ts[i] == Target(q, stage);
      }
      forall stage | stage in stages
        ensures Attainable(c, db, Target(q, stage), s) <==>
                Published(db, Key(q, s.session, stage, s.group, s.user)) || MayCreate(c, Target(q, stage), s)
      {
        assert Publishable(c, Target(q, stage), s) <==> MayCreate(c, Target(q, stage), s);
      }
    }
  }

  // ---------------------------------------------------------------- what whole operations keep

  predicate HasRow(pubs: seq<Publication>, id: nat, key: Key) {
    exists i :: 0 <= i < |pubs| && pubs[i].id == id && KeyOf(pubs[i]) == key
  }

  lemma SwitchKeepsRow(pubs: seq<Publication>, target: nat, enabled: bool, setId: Option<nat>, id: nat, key: Key)
    requires HasRow(pubs, id, key)
    ensures HasRow(SwitchRow(pubs, target, enabled, setId), id, key)
  {
    var i :| 0 <= i < |pubs| && pubs[i].id == id && KeyOf(pubs[i]) == key;
    var after := SwitchRow(pubs, target, enabled, setId);
    assert after[i].id == id && KeyOf(after[i]) == key;
  }

  lemma InsertKeepsRow(db: Db, p: Publication, id: nat, key: Key)
    requires HasRow(db.pubs, id, key)
    ensures HasRow(InsertPublication(db, p).0.pubs, id, key)
  {
    var i :| 0 <= i < |db.pubs| && db.pubs[i].id == id && KeyOf(db.pubs[i]) == key;
    assert InsertPublication(db, p).0.pubs[i] == db.pubs[i];
  }

  lemma {:induction false} EnsureAllKeepsRow(c: Catalog, db: Db, ts: seq<Target>, s: Scope, setId: Option<nat>,
      id: nat, key: Key)
    requires HasRow(db.pubs, id, key)
    ensures HasRow(EnsureAll(c, db, ts, s, setId).0.pubs, id, key)
    ensures EnsureAll(c, db, ts, s, setId).0.answered == db.answered
  {
    if ts != [] {
      EnsureAllKeepsRow(c, db, ts[..|ts| - 1], s, setId, id, key);
      var before := EnsureAll(c, db, ts[..|ts| - 1], s, setId).0;
      var t := ts[|ts| - 1];
      var existing := FindKey(before.pubs, TargetKey(t, s));
      if existing.Some? { SwitchKeepsRow(before.pubs, existing.value, true, setId, id, key); }
      else { InsertKeepsRow(before, NewRow(t, s, setId), id, key); }
    }
  }

  lemma DeleteKeepsAnswered(db: Db, target: nat, id: nat, key: Key)
    requires HasRow(db.pubs, id, key) && (key.questionnaire, key.session, key.stage) in db.answered
    ensures HasRow(Delete(db, target).0.pubs, id, key)
  {
    var i :| 0 <= i < |db.pubs| && db.pubs[i].id == id && KeyOf(db.pubs[i]) == key;
    hide RemoveRow, SwitchRow;
    SwitchKeepsRow(db.pubs, target, false, None, id, key);
    if target == id {
      assert Answered(db, db.pubs[i]);
    } else {
      assert db.pubs[i] in RemoveRow(db.pubs, target);
    }
  }

  /**
   Deleting: a publication nobody answered is the one row that goes; an answered one
   stays, closed and otherwise as it was, and the call raises.
   */
  lemma DeleteExactly(db: Db, i: nat)
    requires PubInv(db) && i < |db.pubs|
    ensures var r := Delete(db, db.pubs[i].id);
            if Answered(db, db.pubs[i])
            then r == (db.(pubs := db.pubs[i := db.pubs[i].(enabled := false)]), Raised)
            else r.1.Done? && forall p :: p in r.0.pubs <==> p in db.pubs && p != db.pubs[i]
  {
    var id := db.pubs[i].id;
    assert forall j :: 0 <= j < |db.pubs| && j != i ==> db.pubs[j].id != id;
    assert HasId(db.pubs, id);
    if Answered(db, db.pubs[i]) {
      assert SwitchRow(db.pubs, id, false, None) == db.pubs[i := db.pubs[i].(enabled := false)];
    }
  }

  /** The row is there and its questionnaire was answered in its session and stage. */
  predicate AnsweredRow(db: Db, id: nat, key: Key) {
    HasRow(db.pubs, id, key) && (key.questionnaire, key.session, key.stage) in db.answered
  }

  lemma ApplyKeepsAnswered(c: Catalog, db: Db, e: Event, id: nat, key: Key)
    requires AnsweredRow(db, id, key)
    ensures AnsweredRow(Apply(c, db, e), id, key)
  {
    match e
    case CreateEv(t, s, setId, stale) => InsertKeepsRow(db, NewRow(t, s, setId), id, key);
    case PublishEv(q, stage, s) =>
      if q in c.questionnaires {
        var stages := if stage.Some? then [stage.value] else StagesOf(c.questionnaires[q].timing);
        EnsureAllKeepsRow(c, db, StageTargets(q, stages), s, None, id, key);
      }
    case ExpandEv(setId, s) =>
      if setId in c.sets { EnsureAllKeepsRow(c, db, SetTargets(c, c.sets[setId].items), s, Some(setId), id, key); }
    case StatusEv(target, enabled) => SwitchKeepsRow(db.pubs, target, enabled, None, id, key);
    case DeleteEv(target) => DeleteKeepsAnswered(db, target, id, key);
    case SubmitEv(_, _, _) =>
  }

  lemma EnsureAllNext(c: Catalog, db: Db, ts: seq<Target>, i: nat, s: Scope, setId: Option<nat>)
    requires i < |ts| && EnsureAll(c, db, ts[..i], s, setId).1.Done?
    ensures var before := EnsureAll(c, db, ts[..i], s, setId);
            var last := Ensure(c, before.0, ts[i], s, setId);
            EnsureAll(c, db, ts[..i + 1], s, setId) ==
            (last.0, if last.1.Raised? then Raised else Done(before.1.value + [last.1.value]))
  {
    assert ts[..i + 1][..i] == ts[..i];
  }

  /** Steps after one that raised are not run. */
  lemma {:induction false} EnsureAllStopped(c: Catalog, db: Db, ts: seq<Target>, i: nat, s: Scope, setId: Option<nat>)
    requires i <= |ts| && EnsureAll(c, db, ts[..i], s, setId).1.Raised?
    ensures EnsureAll(c, db, ts, s, setId) == EnsureAll(c, db, ts[..i], s, setId)
  {
    if i == |ts| {
      assert ts[..i] == ts;
    } else {
      var init := ts[..|ts| - 1];
      assert init[..i] == ts[..i];
      EnsureAllStopped(c, db, init, i, s, setId);
    }
  }

  // ---------------------------------------------------------------- the code

  /** The publication table as the functions update it. */
  class PublicationDesk {
    const catalog: Catalog
    var pubs: seq<Publication>
    var nextId: nat
    var answered: set<(nat, nat, Stage)>

    ghost function View(): Db reads this { Db(pubs, nextId, answered) }

    constructor (c: Catalog)
      ensures catalog == c && View() == Db([], 1, {})
    {
      catalog, pubs, nextId, answered := c, [], 1, {};
    }

    method CreatePublication(t: Target, s: Scope, setId: Option<nat>, stale: bool) returns (r: Outcome<nat>)
      modifies this
      ensures (View(), r) == Create(catalog, old(View()), t, s, setId, stale)
    {
      if !Publishable(catalog, t, s) { return Raised; }
      if !stale {
        var existing := FindKey(pubs, TargetKey(t, s));
        if existing.Some? { return Raised; }
      }
      var row := NewRow(t, s, setId);
      if FindKey(pubs, KeyOf(row)).Some? { return Raised; }
      pubs := pubs + [row.(id := nextId)];
      nextId := nextId + 1;
      return Done(nextId - 1);
    }

    method EnsurePublication(t: Target, s: Scope, setId: Option<nat>) returns (r: Outcome<nat>)
      modifies this
      ensures (View(), r) == Ensure(catalog, old(View()), t, s, setId)
    {
      var existing := FindKey(pubs, TargetKey(t, s));
      if existing.Some? {
        pubs := SwitchRow(pubs, existing.value, true, setId);
        return Done(existing.value);
      }
      r := CreatePublication(t, s, setId, false);
    }

    /** The loop over the questionnaires and their stages. */
    method EnsureTargets(ts: seq<Target>, s: Scope, setId: Option<nat>) returns (r: Outcome<seq<nat>>)
      modifies this
      ensures (View(), r) == EnsureAll(catalog, old(View()), ts, s, setId)
    {
      hide Ensure;
      var ids, i := [], 0;
      while i < |ts|
        invariant 0 <= i <= |ts|
        invariant (View(), Done(ids)) == EnsureAll(catalog, old(View()), ts[..i], s, setId)
      {
        EnsureAllNext(catalog, old(View()), ts, i, s, setId);
        var id := EnsurePublication(ts[i], s, setId);
        i := i + 1;
        if id.Raised? {
          EnsureAllStopped(catalog, old(View()), ts, i, s, setId);
          return Raised;
        }
        ids := ids + [id.value];
      }
      assert ts[..i] == ts;
      return Done(ids);
    }

    method PublishToSession(q: nat, stage: Option<Stage>, s: Scope) returns (r: Outcome<seq<nat>>)
      modifies this
      ensures (View(), r) == Publish(catalog, old(View()), q, stage, s)
    {
      if q !in catalog.questionnaires || s.session !in catalog.sessions { return Raised; }
      var stages := if stage.Some? then [stage.value] else StagesOf(catalog.questionnaires[q].timing);
      r := EnsureTargets(StageTargets(q, stages), s, None);
    }

    method ExpandSet(setId: nat, s: Scope) returns (r: Outcome<seq<nat>>)
      modifies this
      ensures (View(), r) == Expand(catalog, old(View()), setId, s)
    {
      if setId !in catalog.sets || !catalog.sets[setId].active || s.session !in catalog.sessions { return Raised; }
      r := EnsureTargets(SetTargets(catalog, catalog.sets[setId].items), s, Some(setId));
    }

    method UpdatePublication(id: nat, enabled: bool) returns (r: Outcome<bool>)
      modifies this
      ensures (View(), r) == SetStatus(old(View()), id, enabled)
    {
      if !HasId(pubs, id) { return Raised; }
      pubs := SwitchRow(pubs, id, enabled, None);
      r := Done(true);
    }

    method DeletePublication(id: nat) returns (r: Outcome<bool>)
      modifies this
      ensures (View(), r) == Delete(old(View()), id)
    {
      if !HasId(pubs, id) { return Raised; }
      if exists i :: 0 <= i < |pubs| && pubs[i].id == id
          && (pubs[i].questionnaire, pubs[i].session, pubs[i].stage) in answered {
        pubs := SwitchRow(pubs, id, false, None);
        return Raised;
      }
      pubs := RemoveRow(pubs, id);
      r := Done(true);
    }
  }
}
