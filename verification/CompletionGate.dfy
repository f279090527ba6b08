/**
 Answering questionnaires and the gate the answers open: submissions (db.py), the
 two completion loops (db.py, routes/collab_pages.py) and the page's redirects.
 */
module CompletionGate {
  import opened Tables
  import opened Questionnaires

  datatype Submission = Submission(id: nat, questionnaire: nat, user: nat, session: nat, stage: Stage, submitted: bool)

  datatype Response = Response(questionnaire: nat, user: nat, item: nat, session: nat, stage: Stage, submission: nat)

  datatype Answers = Answers(submissions: seq<Submission>, responses: seq<Response>, nextId: nat)

  datatype AnswerKey = AnswerKey(questionnaire: nat, user: nat, session: nat, stage: Stage)

  function SubmissionKey(s: Submission): AnswerKey { AnswerKey(s.questionnaire, s.user, s.session, s.stage) }

  function ResponseKey(r: Response): AnswerKey { AnswerKey(r.questionnaire, r.user, r.session, r.stage) }

  predicate HasSubmitted(a: Answers, key: AnswerKey) {
    exists i :: 0 <= i < |a.submissions| && SubmissionKey(a.submissions[i]) == key && a.submissions[i].submitted
  }

  predicate HasResponse(a: Answers, key: AnswerKey) {
    exists i :: 0 <= i < |a.responses| && ResponseKey(a.responses[i]) == key
  }

  /** A questionnaire counts as answered by a submission or, for old data, by any response. */
  predicate IsAnswered(a: Answers, key: AnswerKey) { HasSubmitted(a, key) || HasResponse(a, key) }

  /** Answered, column by column. */
  lemma AnsweredExactly(a: Answers, key: AnswerKey)
    ensures IsAnswered(a, key) <==>
            || (exists i :: 0 <= i < |a.submissions| && RowFor(a.submissions[i], key) && a.submissions[i].submitted)
            || (exists i :: && 0 <= i < |a.responses| && a.responses[i].questionnaire == key.questionnaire
                            && a.responses[i].user == key.user && a.responses[i].session == key.session
                            && a.responses[i].stage == key.stage)
  {
    assert forall i :: 0 <= i < |a.submissions| ==>
        (SubmissionKey(a.submissions[i]) == key <==> RowFor(a.submissions[i], key));
    if i :| && 0 <= i < |a.responses| && a.responses[i].questionnaire == key.questionnaire
            && a.responses[i].user == key.user && a.responses[i].session == key.session
            && a.responses[i].stage == key.stage {
      assert ResponseKey(a.responses[i]) == key;
    }
  }

  // ---------------------------------------------------------------- submitting

  /**
   create_questionnaire_submission's arguments. An item key that is no number is
   None and skipped; `failAt` is the item whose handling raises, if any; `stale`
   marks a lookup that ran before a concurrent insert.
   */
  datatype Form = Form(key: AnswerKey, items: seq<Option<nat>>, failAt: Option<nat>, stale: bool)

  datatype Verdict = Accepted(submission: nat) | AlreadySubmitted | Failed

  function ResponseTo(key: AnswerKey, item: nat, submission: nat): Response {
    Response(key.questionnaire, key.user, item, key.session, key.stage, submission)
  }

  function ResponsesOf(key: AnswerKey, items: seq<Option<nat>>, submission: nat): seq<Response> {
    if items == [] then [] else
      var last := items[|items| - 1];
      ResponsesOf(key, items[..|items| - 1], submission) +
      if last.Some? then [ResponseTo(key, last.value, submission)] else []
  }

  lemma {:induction false} ResponseStored(key: AnswerKey, items: seq<Option<nat>>, submission: nat, item: nat)
    ensures Some(item) in items <==> ResponseTo(key, item, submission) in ResponsesOf(key, items, submission)
  {
    if items != [] {
      var init, last := items[..|items| - 1], items[|items| - 1];
      ResponseStored(key, init, submission, item);
      assert items == init + [last];
    }
  }

  lemma {:induction false} ResponsesUnderKey(key: AnswerKey, items: seq<Option<nat>>, submission: nat)
    ensures forall r :: r in ResponsesOf(key, items, submission) ==> ResponseKey(r) == key && r.submission == submission
  {
    if items != [] { ResponsesUnderKey(key, items[..|items| - 1], submission); }
  }

  /** The rows a form stores: one for each item with a numeric key, all under the form's own key. */
  lemma {:induction false} ResponsesMeaning(key: AnswerKey, items: seq<Option<nat>>, submission: nat)
    ensures var rs := ResponsesOf(key, items, submission);
            && (forall r :: r in rs ==> ResponseKey(r) == key && r.submission == submission)
            && (forall item: nat :: Some(item) in items <==> ResponseTo(key, item, submission) in rs)
  {
    ResponsesUnderKey(key, items, submission);
    forall item: nat
      ensures Some(item) in items <==> ResponseTo(key, item, submission) in ResponsesOf(key, items, submission)
    {
      ResponseStored(key, items, submission, item);
    }
  }

  lemma ResponsesNext(key: AnswerKey, items: seq<Option<nat>>, i: nat, submission: nat)
    requires i < |items|
    ensures ResponsesOf(key, items[..i + 1], submission) == ResponsesOf(key, items[..i], submission) +
            if items[i].Some? then [ResponseTo(key, items[i].value, submission)] else []
  {
    assert items[..i + 1][..i] == items[..i];
  }

  /** The unique index on (questionnaire, user, session, stage), whatever the status. */
  predicate KeyTaken(a: Answers, key: AnswerKey) {
    exists i :: 0 <= i < |a.submissions| && SubmissionKey(a.submissions[i]) == key
  }

  function Submit(a: Answers, f: Form): (Answers, Verdict) {
    if !f.stale && HasSubmitted(a, f.key) then (a, AlreadySubmitted)
    else if KeyTaken(a, f.key) || (f.failAt.Some? && f.failAt.value < |f.items|) then (a, Failed)
    else
      var row := Submission(a.nextId, f.key.questionnaire, f.key.user, f.key.session, f.key.stage, true);
      (Answers(a.submissions + [row], a.responses + ResponsesOf(f.key, f.items, a.nextId), a.nextId + 1),
          Accepted(a.nextId))
  }

  function SubmitAll(a: Answers, fs: seq<Form>): Answers {
    if fs == [] then a else Submit(SubmitAll(a, fs[..|fs| - 1]), fs[|fs| - 1]).0
  }

  predicate OnePerKey(a: Answers) {
    forall i, j :: 0 <= i < j < |a.submissions| ==> SubmissionKey(a.submissions[i]) != SubmissionKey(a.submissions[j])
  }

  /** The row answers this key, column by column. */
  predicate RowFor(s: Submission, key: AnswerKey) {
    s.questionnaire == key.questionnaire && s.user == key.user && s.session == key.session && s.stage == key.stage
  }

  /** Handling the items raises: the one that raises is among them. */
  predicate ItemsRaise(f: Form) { f.failAt.Some? && f.failAt.value < |f.items| }

  /**
   When a form is accepted: exactly when no submission row has its key and none of its
   items raises. The look-up turns it away exactly on a submitted row it could see;
   in all other cases the transaction fails.
   */
  lemma SubmitExactly(a: Answers, f: Form)
    ensures Submit(a, f).1.Accepted? <==>
            (forall i :: 0 <= i < |a.submissions| ==> !RowFor(a.submissions[i], f.key)) && !ItemsRaise(f)
    ensures Submit(a, f).1.AlreadySubmitted? <==>
            && !f.stale
            && exists i :: 0 <= i < |a.submissions| && RowFor(a.submissions[i], f.key) && a.submissions[i].submitted
    ensures Submit(a, f).1.Accepted? ==>
              var (after, verdict) := Submit(a, f);
              && |after.submissions| == |a.submissions| + 1 && after.submissions[..|a.submissions|] == a.submissions
              && RowFor(after.submissions[|a.submissions|], f.key) && after.submissions[|a.submissions|].submitted
              && after.submissions[|a.submissions|].id == verdict.submission == a.nextId && after.nextId == a.nextId + 1
              && after.responses[..|a.responses|] == a.responses
              && (forall r :: r in after.responses[|a.responses|..] <==>
                    exists item: nat :: Some(item) in f.items && r == ResponseTo(f.key, item, a.nextId))
  {
    assert forall i :: 0 <= i < |a.submissions| ==>
        (SubmissionKey(a.submissions[i]) == f.key <==> RowFor(a.submissions[i], f.key));
    if Submit(a, f).1.Accepted? {
      ResponsesMeaning(f.key, f.items, a.nextId);
      var added := Submit(a, f).0.responses[|a.responses|..];
      assert added == ResponsesOf(f.key, f.items, a.nextId);
      forall r | r in added
        ensures exists item: nat :: Some(item) in f.items && r == ResponseTo(f.key, item, a.nextId)
      {
        ResponseHasItem(f.key, f.items, a.nextId, r);
      }
    }
  }

  lemma {:induction false} ResponseHasItem(key: AnswerKey, items: seq<Option<nat>>, submission: nat, r: Response)
    requires r in ResponsesOf(key, items, submission)
    ensures exists item: nat :: Some(item) in items && r == ResponseTo(key, item, submission)
  {
    var init, last := items[..|items| - 1], items[|items| - 1];
    if r in ResponsesOf(key, init, submission) {
      ResponseHasItem(key, init, submission, r);
      var item: nat :| Some(item) in init && r == ResponseTo(key, item, submission);
      assert Some(item) in items;
    } else {
      assert Some(last.value) in items;
    }
  }

  /** What one call leaves behind: everything or nothing. */
  lemma SubmitAllOrNothing(a: Answers, f: Form)
    ensures !Submit(a, f).1.Accepted? ==> Submit(a, f).0 == a
    ensures Submit(a, f).1.Accepted? ==>
              var after := Submit(a, f).0;
              && |after.submissions| == |a.submissions| + 1 && a.submissions <= after.submissions
                  && a.responses <= after.responses
              && HasSubmitted(after, f.key)
              && forall item: nat :: Some(item) in f.items ==>
                   ResponseTo(f.key, item, Submit(a, f).1.submission) in after.responses
  {
    if Submit(a, f).1.Accepted? {
      ResponsesMeaning(f.key, f.items, a.nextId);
      assert SubmissionKey(Submit(a, f).0.submissions[|a.submissions|]) == f.key;
    }
  }

  /**
   Once a submit was accepted, every later one for the key is turned away and changes
   nothing, whatever it raced with.
   */
  lemma SubmitOnlyOnce(a: Answers, f: Form, later: seq<Form>, again: Form)
    requires Submit(a, f).1.Accepted? && again.key == f.key
    ensures var after := SubmitAll(Submit(a, f).0, later);
            Submit(after, again) == (after, if again.stale then Failed else AlreadySubmitted)
  {
    SubmitAllOrNothing(a, f);
    SubmittedStays(Submit(a, f).0, later, f.key);
  }

  lemma {:induction false} SubmittedStays(a: Answers, fs: seq<Form>, key: AnswerKey)
    requires HasSubmitted(a, key)
    ensures HasSubmitted(SubmitAll(a, fs), key)
  {
    if fs != [] {
      var init := fs[..|fs| - 1];
      SubmittedStays(a, init, key);
      var before, after := SubmitAll(a, init), SubmitAll(a, fs);
      assert before.submissions <= after.submissions;
      var i :| 0 <= i < |before.submissions| && SubmissionKey(before.submissions[i]) == key
          && before.submissions[i].submitted;
      assert after.submissions[i] == before.submissions[i];
    }
  }

  /**
   After any run of submits, racing or not, each questionnaire has at most one
   submission per student, session and stage.
   */
  lemma {:induction false} RunKeepsOnePerKey(a: Answers, fs: seq<Form>)
    requires OnePerKey(a)
    ensures OnePerKey(SubmitAll(a, fs))
  {
    if fs != [] { RunKeepsOnePerKey(a, fs[..|fs| - 1]); }
  }

  lemma SubmitAnswersExactly(a: Answers, f: Form, key: AnswerKey)
    ensures IsAnswered(Submit(a, f).0, key) <==> IsAnswered(a, key) || (Submit(a, f).1.Accepted? && f.key == key)
  {
    var after := Submit(a, f).0;
    if Submit(a, f).1.Accepted? {
      ResponsesMeaning(f.key, f.items, a.nextId);
      assert SubmissionKey(after.submissions[|a.submissions|]) == f.key;
      assert forall i :: 0 <= i < |a.submissions| ==> after.submissions[i] == a.submissions[i];
      assert forall i :: 0 <= i < |after.responses| ==>
          after.responses[i] == if i < |a.responses| then a.responses[i]
              else ResponsesOf(f.key, f.items, a.nextId)[i - |a.responses|];
    }
  }

  /** Some submit of the run was accepted for this key. */
  predicate AcceptedIn(a: Answers, fs: seq<Form>, key: AnswerKey) {
    exists i :: 0 <= i < |fs| && fs[i].key == key && Submit(SubmitAll(a, fs[..i]), fs[i]).1.Accepted?
  }

  lemma {:induction false} RunAnswersExactly(a: Answers, fs: seq<Form>, key: AnswerKey)
    ensures IsAnswered(SubmitAll(a, fs), key) <==> IsAnswered(a, key) || AcceptedIn(a, fs, key)
  {
    if fs != [] {
      var init, f := fs[..|fs| - 1], fs[|fs| - 1];
      RunAnswersExactly(a, init, key);
      SubmitAnswersExactly(SubmitAll(a, init), f, key);
      assert AcceptedIn(a, fs, key) <==>
             AcceptedIn(a, init, key) || (f.key == key && Submit(SubmitAll(a, init), f).1.Accepted?) by {
        AcceptedAppend(a, init, f, key);
        assert fs == init + [f];
      }
    }
  }

  lemma AcceptedAppend(a: Answers, init: seq<Form>, f: Form, key: AnswerKey)
    ensures AcceptedIn(a, init + [f], key) <==>
            AcceptedIn(a, init, key) || (f.key == key && Submit(SubmitAll(a, init), f).1.Accepted?)
  {
    var fs := init + [f];
    assert fs[..|init|] == init;
    forall i | 0 <= i < |init| ensures fs[..i] == init[..i] {}
    if AcceptedIn(a, init, key) {
      var i :| 0 <= i < |init| && init[i].key == key && Submit(SubmitAll(a, init[..i]), init[i]).1.Accepted?;
      assert fs[i] == init[i] && fs[..i] == init[..i];
    }
    if f.key == key && Submit(SubmitAll(a, init), f).1.Accepted? {
      assert fs[|init|] == f;
    }
  }

  // ---------------------------------------------------------------- the gate

  function KeyFor(row: Row, v: Viewer): AnswerKey { AnswerKey(row.questionnaire.id, v.user, v.session, v.stage) }

  /** The student's list holds a questionnaire not answered yet. */
  ghost predicate Pending(qs: seq<Questionnaire>, pubs: seq<Publication>, a: Answers, v: Viewer) {
    exists q, p :: q in qs && p in pubs && Offered(q, p, v)
        && !IsAnswered(a, AnswerKey(q.id, v.user, v.session, v.stage))
  }

  /** Reading the list row by row decides whether something offered is unanswered. */
  lemma PendingOnList(qs: seq<Questionnaire>, pubs: seq<Publication>, a: Answers, v: Viewer)
    ensures Pending(qs, pubs, a, v) <==>
            exists i :: 0 <= i < |StudentList(qs, pubs, v)| && !IsAnswered(a, KeyFor(StudentList(qs, pubs, v)[i], v))
  {
    hide StudentList, IsAnswered, ScopeRank, InScope;
    var list := StudentList(qs, pubs, v);
    StudentListExact(qs, pubs, v);
    if Pending(qs, pubs, a, v) {
      var q, p :| q in qs && p in pubs && Offered(q, p, v)
          && !IsAnswered(a, AnswerKey(q.id, v.user, v.session, v.stage));
      assert Covers(list, q.id, ScopeRank(p, v));
      var i :| 0 <= i < |list| && list[i].questionnaire.id == q.id && list[i].rank <= ScopeRank(p, v);
      assert !IsAnswered(a, KeyFor(list[i], v));
    }
    if i :| 0 <= i < |list| && !IsAnswered(a, KeyFor(list[i], v)) {
      assert list[i] in list;
    }
  }

  /** Who is asking, before a session is settled on. */
  datatype Student = Student(user: nat, group: Option<nat>)

  /** has_student_pending_questionnaires: without a session it asks for the running one. */
  method HasPending(qs: seq<Questionnaire>, pubs: seq<Publication>, a: Answers, s: Student, stage: Stage,
                    session: Option<nat>, running: Option<nat>)
    returns (pending: bool)
    ensures var at := if session.Some? then session else running;
            pending <==> at.Some? && Pending(qs, pubs, a, Viewer(s.user, s.group, at.value, stage))
  {
    var at := session;
    if at.None? { at := running; }
    if at.None? { return false; }
    var v := Viewer(s.user, s.group, at.value, stage);
    var list := ListPublished(qs, pubs, v);
    PendingOnList(qs, pubs, a, v);
    var i := 0;
    while i < |list|
      invariant 0 <= i <= |list|
      invariant forall j :: 0 <= j < i ==> IsAnswered(a, KeyFor(list[j], v))
    {
      var key := KeyFor(list[i], v);
      i := i + 1;
      if HasSubmitted(a, key) { continue; }
      if !HasResponse(a, key) { return true; }
    }
    return false;
  }

  /** check_phase_done, for the running session. */
  method CheckPhaseDone(qs: seq<Questionnaire>, pubs: seq<Publication>, a: Answers, s: Student, stage: Stage,
      running: Option<nat>)
    returns (done: bool)
    ensures done <==> running.None? || !Pending(qs, pubs, a, Viewer(s.user, s.group, running.value, stage))
  {
    if running.None? { return true; }
    var v := Viewer(s.user, s.group, running.value, stage);
    var list := ListPublished(qs, pubs, v);
    PendingOnList(qs, pubs, a, v);
    var i := 0;
    while i < |list|
      invariant 0 <= i <= |list|
      invariant forall j :: 0 <= j < i ==> IsAnswered(a, KeyFor(list[j], v))
    {
      var submitted := HasSubmitted(a, KeyFor(list[i], v));
      var response := HasResponse(a, KeyFor(list[i], v));
      if !submitted && !response { return false; }
      i := i + 1;
    }
    return true;
  }

  /** The two loops are each other's negation, for the running session. */
  method LoopsAgree(qs: seq<Questionnaire>, pubs: seq<Publication>, a: Answers, s: Student, stage: Stage,
      running: Option<nat>)
    returns (pending: bool, done: bool)
    ensures done == !pending
  {
    pending := HasPending(qs, pubs, a, s, stage, running, running);
    done := CheckPhaseDone(qs, pubs, a, s, stage, running);
  }

  /**
   With publications fixed, the gate is open after a run of submits exactly when each
   offered questionnaire was answered before or accepted in the run.
   */
  lemma GateOpensExactly(qs: seq<Questionnaire>, pubs: seq<Publication>, a: Answers, fs: seq<Form>, v: Viewer)
    ensures !Pending(qs, pubs, SubmitAll(a, fs), v) <==>
            forall q, p :: q in qs && p in pubs && Offered(q, p, v) ==>
              var key := AnswerKey(q.id, v.user, v.session, v.stage);
              IsAnswered(a, key) || AcceptedIn(a, fs, key)
  {
    forall q | q in qs
      ensures var key := AnswerKey(q.id, v.user, v.session, v.stage);
              IsAnswered(SubmitAll(a, fs), key) <==> IsAnswered(a, key) || AcceptedIn(a, fs, key)
    {
      RunAnswersExactly(a, fs, AnswerKey(q.id, v.user, v.session, v.stage));
    }
  }

  /** A form whose look-up sees every row and none of whose items raises. */
  predicate Ordinary(f: Form) { !f.stale && !ItemsRaise(f) }

  /** Rows are stored as submitted and never otherwise. */
  predicate AllSubmitted(a: Answers) { forall i :: 0 <= i < |a.submissions| ==> a.submissions[i].submitted }

  lemma SubmitKeepsSubmitted(a: Answers, f: Form)
    requires AllSubmitted(a)
    ensures AllSubmitted(Submit(a, f).0)
  {}

  lemma {:induction false} RunKeepsSubmitted(a: Answers, fs: seq<Form>)
    requires AllSubmitted(a)
    ensures AllSubmitted(SubmitAll(a, fs))
  {
    if fs != [] {
      RunKeepsSubmitted(a, fs[..|fs| - 1]);
      SubmitKeepsSubmitted(SubmitAll(a, fs[..|fs| - 1]), fs[|fs| - 1]);
    }
  }

  /** After an ordinary form its key is answered, by it or by an earlier one. */
  lemma OrdinaryFormAnswers(a: Answers, f: Form)
    requires AllSubmitted(a) && Ordinary(f)
    ensures IsAnswered(Submit(a, f).0, f.key)
  {
    SubmitExactly(a, f);
    SubmitAnswersExactly(a, f, f.key);
    if !Submit(a, f).1.Accepted? {
      var i :| 0 <= i < |a.submissions| && RowFor(a.submissions[i], f.key);
      assert SubmissionKey(a.submissions[i]) == f.key;
    }
  }

  lemma {:induction false} OrdinaryRunAnswers(a: Answers, fs: seq<Form>, i: nat)
    requires AllSubmitted(a) && i < |fs| && Ordinary(fs[i])
    ensures IsAnswered(SubmitAll(a, fs), fs[i].key)
  {
    var init, last := fs[..|fs| - 1], fs[|fs| - 1];
    RunKeepsSubmitted(a, init);
    if i < |init| {
      OrdinaryRunAnswers(a, init, i);
      SubmitAnswersExactly(SubmitAll(a, init), last, fs[i].key);
    } else {
      OrdinaryFormAnswers(SubmitAll(a, init), last);
    }
  }

  /**
   The way through: whatever was stored before and whatever else is submitted, a run with
   one ordinary form for each offered questionnaire opens the gate.
   */
  lemma OrdinaryFormsOpenGate(qs: seq<Questionnaire>, pubs: seq<Publication>, a: Answers, fs: seq<Form>, v: Viewer)
    requires AllSubmitted(a)
    requires forall q, p :: q in qs && p in pubs && Offered(q, p, v) ==>
               exists i :: && 0 <= i < |fs| && Ordinary(fs[i])
                           && fs[i].key == AnswerKey(q.id, v.user, v.session, v.stage)
    ensures !Pending(qs, pubs, SubmitAll(a, fs), v)
  {
    forall q, p | q in qs && p in pubs && Offered(q, p, v)
      ensures IsAnswered(SubmitAll(a, fs), AnswerKey(q.id, v.user, v.session, v.stage))
    {
      var i :| && 0 <= i < |fs| && Ordinary(fs[i]) && fs[i].key == AnswerKey(q.id, v.user, v.session, v.stage);
      OrdinaryRunAnswers(a, fs, i);
    }
  }

  /** An open gate stays open, whoever submits what. */
  lemma GateStaysOpen(qs: seq<Questionnaire>, pubs: seq<Publication>, a: Answers, fs: seq<Form>, v: Viewer)
    requires !Pending(qs, pubs, a, v)
    ensures !Pending(qs, pubs, SubmitAll(a, fs), v)
  {
    GateOpensExactly(qs, pubs, a, fs, v);
  }

  // ---------------------------------------------------------------- the page's redirects

  datatype Phase = Pretest | Discussion | Posttest

  /** `token`: the tab token is in the URL. `phase`: None for a missing or unknown parameter. */
  datatype Visit = Visit(token: bool, phase: Option<Phase>)

  /** The state a page load reads; `lesson` is a running session with a session id and a task. */
  datatype PageState = PageState(running: bool, task: bool, lesson: bool, pendingPre: bool, deliverableSubmitted: bool)

  datatype Reply = Redirect(visit: Visit) | Page(phase: Phase)

  /** student_collab, up to the page it renders. */
  function Respond(g: PageState, v: Visit): Reply {
    if !v.token then Redirect(Visit(true, v.phase)) else
      var phase := if v.phase.Some? then v.phase.value else Discussion;
      if phase != Pretest && g.running && g.task && g.pendingPre then Redirect(Visit(true, Some(Pretest)))
      else if !g.lesson then Page(Discussion)
      else if phase == Posttest && !(g.lesson && g.deliverableSubmitted) then Redirect(Visit(true, Some(Discussion)))
      else Page(phase)
  }

  function RedirectsLeft(g: PageState, v: Visit): nat {
    (if v.token then 0 else 1) + if v.phase == Some(Pretest) then 0 else if v.phase == Some(Posttest) then 2 else 1
  }

  /** The page a browser ends on; that this recursion is well-founded is that redirects always end. */
  function Follow(g: PageState, v: Visit): (r: (Phase, nat))
    ensures r.1 <= RedirectsLeft(g, v)
    decreases RedirectsLeft(g, v)
  {
    match Respond(g, v)
    case Page(phase) => (phase, 0)
    case Redirect(next) => var rest := Follow(g, next); (rest.0, rest.1 + 1)
  }

  lemma TokenedRedirectsEnd(g: PageState, phase: Option<Phase>)
    requires g.lesson ==> g.running && g.task
    ensures Follow(g, Visit(true, phase)).1 <= 1
    ensures Follow(g, Visit(true, phase)).0 ==
            if !g.lesson then Discussion
            else if g.pendingPre || phase == Some(Pretest) then Pretest
            else if phase == Some(Posttest) && g.deliverableSubmitted then Posttest
            else Discussion
  {
    var asked := if phase.Some? then phase.value else Discussion;
    assert Respond(g, Visit(true, Some(Pretest))).Page?;
    assert !(g.running && g.task && g.pendingPre) ==> Respond(g, Visit(true, Some(Discussion))) == Page(Discussion);
  }

  /**
   A browser follows at most two redirects. It ends on the pretest while one is due,
   and on the posttest only when the group's document is in.
   */
  lemma RedirectsEnd(g: PageState, v: Visit)
    requires g.lesson ==> g.running && g.task
    ensures Follow(g, v).1 <= 2
    ensures Follow(g, v).0 ==
            if !g.lesson then Discussion
            else if g.pendingPre || v.phase == Some(Pretest) then Pretest
            else if v.phase == Some(Posttest) && g.deliverableSubmitted then Posttest
            else Discussion
  {
    TokenedRedirectsEnd(g, v.phase);
  }

  // ---------------------------------------------------------------- the submit transaction

  class AnswerStore {
    var submissions: seq<Submission>
    var responses: seq<Response>
    var nextId: nat

    ghost function View(): Answers reads this { Answers(submissions, responses, nextId) }

    constructor ()
      ensures View() == Answers([], [], 1)
    {
      submissions, responses, nextId := [], [], 1;
    }

    /** The loop over the items: their INSERTs, up to the one that raises. */
    method InsertResponses(f: Form, submission: nat) returns (ok: bool)
      modifies this`responses
      ensures ok == (f.failAt.None? || f.failAt.value >= |f.items|)
      ensures ok ==> responses == old(responses) + ResponsesOf(f.key, f.items, submission)
    {
      var i := 0;
      while i < |f.items|
        invariant 0 <= i <= |f.items|
        invariant f.failAt.Some? ==> i <= f.failAt.value
        invariant responses == old(responses) + ResponsesOf(f.key, f.items[..i], submission)
      {
        if f.failAt == Some(i) { return false; }
        ResponsesNext(f.key, f.items, i, submission);
        if f.items[i].Some? {
          responses := responses + [ResponseTo(f.key, f.items[i].value, submission)];
        }
        i := i + 1;
      }
      assert f.items[..i] == f.items;
      ok := true;
    }

    method CreateSubmission(f: Form) returns (verdict: Verdict)
      modifies this
      ensures (View(), verdict) == Submit(old(View()), f)
    {
      var before := (submissions, responses, nextId);
      var a := Answers(submissions, responses, nextId);
      if !f.stale && HasSubmitted(a, f.key) { return AlreadySubmitted; }
      if KeyTaken(a, f.key) { return Failed; }
      var id := nextId;
      var row := Submission(id, f.key.questionnaire, f.key.user, f.key.session, f.key.stage, true);
      submissions := submissions + [row];
      nextId := nextId + 1;
      var ok := InsertResponses(f, id);
      if !ok {
        submissions, responses, nextId := before.0, before.1, before.2;
        return Failed;
      }
      return Accepted(id);
    }
  }
}
