/**
 The student's questionnaire list (db.py, list_published_questionnaires_for_student):
 a join of questionnaires and publications, ordered by scope, of which the first
 row per questionnaire is kept.
 */
module Questionnaires {
  import opened Tables

  datatype Stage = Pre | Post

  datatype Timing = OnlyPre | OnlyPost | Both

  datatype Questionnaire = Questionnaire(id: nat, timing: Timing, active: bool, sortOrder: int)

  /** None in `group` or `user` is SQL NULL: not limited to a group or a student. */
  datatype Publication = Publication(id: nat, questionnaire: nat, session: nat, stage: Stage,
                                     group: Option<nat>, user: Option<nat>, enabled: bool, setId: Option<nat>)

  /** Who asks, in which session and stage; a student without a group has group None. */
  datatype Viewer = Viewer(user: nat, group: Option<nat>, session: nat, stage: Stage)

  /** SQL equality of a column with a bound value: NULL equals nothing. */
  predicate SqlEq(column: Option<nat>, value: Option<nat>) { column.Some? && value.Some? && column == value }

  /** The WHERE clause on a publication. */
  predicate InScope(p: Publication, v: Viewer) {
    && p.session == v.session && p.stage == v.stage && p.enabled
    && (p.group.None? || SqlEq(p.group, v.group))
    && (p.user.None? || SqlEq(p.user, Some(v.user)))
  }

  /** The questionnaire and the publication are joined and pass the WHERE clause. */
  predicate Offered(q: Questionnaire, p: Publication, v: Viewer) {
    q.active && q.id == p.questionnaire && InScope(p, v)
  }

  function ScopeRank(p: Publication, v: Viewer): nat {
    if SqlEq(p.user, Some(v.user)) then 0 else if SqlEq(p.group, v.group) then 1 else 2
  }

  datatype Row = Row(questionnaire: Questionnaire, publication: Publication, rank: nat)

  /** publication_scope_rank, sort_order, id. */
  predicate RowLe(a: Row, b: Row) {
    if a.rank != b.rank then a.rank < b.rank
    else if a.questionnaire.sortOrder != b.questionnaire.sortOrder
    then a.questionnaire.sortOrder < b.questionnaire.sortOrder
    else a.questionnaire.id <= b.questionnaire.id
  }

  function JoinOne(q: Questionnaire, pubs: seq<Publication>, v: Viewer): (rows: seq<Row>)
    ensures forall row :: row in rows <==>
              && row.questionnaire == q && row.publication in pubs
              && Offered(q, row.publication, v) && row.rank == ScopeRank(row.publication, v)
  {
    if pubs == [] then [] else
      (if Offered(q, pubs[0], v) then [Row(q, pubs[0], ScopeRank(pubs[0], v))] else []) + JoinOne(q, pubs[1..], v)
  }

  function Join(qs: seq<Questionnaire>, pubs: seq<Publication>, v: Viewer): (rows: seq<Row>)
    ensures forall row :: row in rows <==>
              && row.questionnaire in qs && row.publication in pubs
              && Offered(row.questionnaire, row.publication, v) && row.rank == ScopeRank(row.publication, v)
  {
    if qs == [] then [] else JoinOne(qs[0], pubs, v) + Join(qs[1..], pubs, v)
  }

  /** The rows the SELECT yields. */
  function Selected(qs: seq<Questionnaire>, pubs: seq<Publication>, v: Viewer): seq<Row> {
    OrderBy(Join(qs, pubs, v), RowLe)
  }

  function IdsOf(rows: seq<Row>): set<nat> { set i | 0 <= i < |rows| :: rows[i].questionnaire.id }

  /** Of the rows of one questionnaire, the first. */
  function KeepFirst(rows: seq<Row>): seq<Row> {
    if rows == [] then [] else
      var kept := KeepFirst(rows[..|rows| - 1]);
      var row := rows[|rows| - 1];
      if row.questionnaire.id in IdsOf(kept) then kept else kept + [row]
  }

  function StudentList(qs: seq<Questionnaire>, pubs: seq<Publication>, v: Viewer): seq<Row> {
    KeepFirst(Selected(qs, pubs, v))
  }

  /** What keeping the first row per questionnaire does to a row sequence. */
  lemma {:induction false} KeepFirstIsPerIdFirst(rows: seq<Row>)
    ensures IdsOf(KeepFirst(rows)) == IdsOf(rows)
    ensures forall i, j :: 0 <= i < j < |KeepFirst(rows)| ==>
              KeepFirst(rows)[i].questionnaire.id != KeepFirst(rows)[j].questionnaire.id
    ensures forall row :: row in KeepFirst(rows) ==> row in rows
  {
    if rows != [] {
      KeepFirstIsPerIdFirst(rows[..|rows| - 1]);
      assert rows == rows[..|rows| - 1] + [rows[|rows| - 1]];
      IdsOfAppend(rows[..|rows| - 1], rows[|rows| - 1]);
      IdsOfAppend(KeepFirst(rows[..|rows| - 1]), rows[|rows| - 1]);
    }
  }

  lemma IdsOfAppend(rows: seq<Row>, row: Row)
    ensures IdsOf(rows + [row]) == IdsOf(rows) + {row.questionnaire.id}
  {
    var ids := IdsOf(rows + [row]);
    assert (rows + [row])[|rows|] == row;
    forall id | id in IdsOf(rows) ensures id in ids {
      var i :| 0 <= i < |rows| && rows[i].questionnaire.id == id;
      assert (rows + [row])[i].questionnaire.id == id;
    }
  }

  lemma AscendingSplit(init: seq<Row>, last: Row)
    requires Ascending(init + [last], RowLe)
    ensures Ascending(init, RowLe) && forall row :: row in init ==> RowLe(row, last)
  {
    var rows := init + [last];
    assert forall i :: 0 <= i < |init| ==> rows[i] == init[i];
    forall row | row in init ensures RowLe(row, last) {
      var i :| 0 <= i < |init| && init[i] == row;
      assert RowLe(rows[i], rows[|init|]);
    }
  }

  lemma AscendingOn(rows: seq<Row>, last: Row)
    requires Ascending(rows, RowLe) && forall row :: row in rows ==> RowLe(row, last)
    ensures Ascending(rows + [last], RowLe)
  {}

  /** In ordered rows the row kept for a questionnaire has the least rank among its rows. */
  lemma {:induction false} KeepFirstIsLeast(rows: seq<Row>)
    requires Ascending(rows, RowLe)
    ensures Ascending(KeepFirst(rows), RowLe)
    ensures forall kept, row ::
              kept in KeepFirst(rows) && row in rows && kept.questionnaire.id == row.questionnaire.id ==>
              kept.rank <= row.rank
  {
    if rows != [] {
      hide Ascending;
      var init, last := rows[..|rows| - 1], rows[|rows| - 1];
      assert rows == init + [last];
      AscendingSplit(init, last);
      KeepFirstIsLeast(init);
      KeepFirstIsPerIdFirst(init);
      if last.questionnaire.id !in IdsOf(KeepFirst(init)) { AscendingOn(KeepFirst(init), last); }
    }
  }

  lemma RowLeIsTotalPreorder()
    ensures TotalPreorder(RowLe)
  {}

  /** The rows of the SELECT are the join's rows. */
  lemma SelectedRows(qs: seq<Questionnaire>, pubs: seq<Publication>, v: Viewer, row: Row)
    ensures row in Selected(qs, pubs, v) <==> row in Join(qs, pubs, v)
  {
    assert row in multiset(Selected(qs, pubs, v)) <==> row in multiset(Join(qs, pubs, v));
  }

  /** The list has a row for the questionnaire, of no greater rank. */
  ghost predicate Covers(list: seq<Row>, id: nat, rank: nat) {
    exists i :: 0 <= i < |list| && list[i].questionnaire.id == id && list[i].rank <= rank
  }

  /** Every publication that reaches the student is covered, at its rank or a lesser one. */
  lemma OfferedIsCovered(qs: seq<Questionnaire>, pubs: seq<Publication>, v: Viewer, q: Questionnaire, p: Publication)
    requires q in qs && p in pubs && Offered(q, p, v)
    ensures Covers(StudentList(qs, pubs, v), q.id, ScopeRank(p, v))
  {
    var rows, list := Selected(qs, pubs, v), StudentList(qs, pubs, v);
    var row := Row(q, p, ScopeRank(p, v));
    SelectedRows(qs, pubs, v, row);
    RowLeIsTotalPreorder();
    OrderByAscending(Join(qs, pubs, v), RowLe);
    KeepFirstIsPerIdFirst(rows);
    KeepFirstIsLeast(rows);
    assert q.id in IdsOf(rows) && q.id in IdsOf(list);
    var i :| 0 <= i < |list| && list[i].questionnaire.id == q.id;
    assert list[i] in list;
  }

  /**
   The list holds exactly the active questionnaires with an enabled publication that
   reaches the student, each once, each with the least rank among those that
   reach, ordered by rank, sort order and id.
   */
  lemma StudentListExact(qs: seq<Questionnaire>, pubs: seq<Publication>, v: Viewer)
    ensures forall row :: row in StudentList(qs, pubs, v) ==>
              && row.questionnaire in qs && row.publication in pubs
              && Offered(row.questionnaire, row.publication, v) && row.rank == ScopeRank(row.publication, v)
    ensures forall q, p :: q in qs && p in pubs && Offered(q, p, v) ==>
              Covers(StudentList(qs, pubs, v), q.id, ScopeRank(p, v))
    ensures forall i, j :: 0 <= i < j < |StudentList(qs, pubs, v)| ==>
              StudentList(qs, pubs, v)[i].questionnaire.id != StudentList(qs, pubs, v)[j].questionnaire.id
    ensures Ascending(StudentList(qs, pubs, v), RowLe)
  {
    var rows, list := Selected(qs, pubs, v), StudentList(qs, pubs, v);
    KeepFirstIsPerIdFirst(rows);
    forall row | row in list ensures row in Join(qs, pubs, v) {
      SelectedRows(qs, pubs, v, row);
    }
    forall q, p | q in qs && p in pubs && Offered(q, p, v)
      ensures Covers(list, q.id, ScopeRank(p, v))
    {
      OfferedIsCovered(qs, pubs, v, q, p);
    }
    RowLeIsTotalPreorder();
    OrderByAscending(Join(qs, pubs, v), RowLe);
    KeepFirstIsLeast(rows);
  }

  /** Who a publication reaches, column by column: a limit to a group or a student must name the viewer's own. */
  lemma OfferedExactly(q: Questionnaire, p: Publication, v: Viewer)
    ensures Offered(q, p, v) <==>
            && q.active && q.id == p.questionnaire && p.enabled && p.session == v.session && p.stage == v.stage
            && (p.group == None || (v.group != None && p.group == v.group))
            && (p.user == None || p.user == Some(v.user))
  {}

  /** Of the publications that reach a student: rank 0 is the student's own, 1 the group's, 2 everyone's. */
  lemma RankMeaning(q: Questionnaire, p: Publication, v: Viewer)
    requires Offered(q, p, v)
    ensures ScopeRank(p, v) == 0 <==> p.user == Some(v.user)
    ensures ScopeRank(p, v) == 1 <==> p.user == None && p.group != None
    ensures ScopeRank(p, v) == 2 <==> p.user == None && p.group == None
  {}

  /** The list is read from the student's own publications to everyone's, then by sort order, then by id. */
  predicate ListedBefore(a: Row, b: Row) {
    || a.rank < b.rank
    || (a.rank == b.rank && a.questionnaire.sortOrder < b.questionnaire.sortOrder)
    || (a.rank == b.rank && a.questionnaire.sortOrder == b.questionnaire.sortOrder
          && a.questionnaire.id < b.questionnaire.id)
  }

  lemma ListIsOrdered(qs: seq<Questionnaire>, pubs: seq<Publication>, v: Viewer, i: nat, j: nat)
    requires i < j < |StudentList(qs, pubs, v)|
    ensures ListedBefore(StudentList(qs, pubs, v)[i], StudentList(qs, pubs, v)[j])
  {
    hide StudentList;
    StudentListExact(qs, pubs, v);
    var list := StudentList(qs, pubs, v);
    assert RowLe(list[i], list[j]) && list[i].questionnaire.id != list[j].questionnaire.id;
  }

  /** The questionnaire is on the list through a publication of this kind. */
  ghost predicate ListedThrough(list: seq<Row>, id: nat, own: bool, v: Viewer) {
    exists i :: && 0 <= i < |list| && list[i].questionnaire.id == id
                && (list[i].publication.user == Some(v.user) || (!own && list[i].publication.group != None))
  }

  /**
   A questionnaire published to the student is listed through a publication of the
   student's own; failing that, one published to the group is listed through one for
   student or group, never through one for everyone.
   */
  lemma NearestPublicationWins(qs: seq<Questionnaire>, pubs: seq<Publication>, v: Viewer, q: Questionnaire,
      p: Publication)
    requires q in qs && p in pubs && Offered(q, p, v) && (p.user != None || p.group != None)
    ensures ListedThrough(StudentList(qs, pubs, v), q.id, p.user != None, v)
  {
    hide StudentList;
    StudentListExact(qs, pubs, v);
    var list := StudentList(qs, pubs, v);
    assert Covers(list, q.id, ScopeRank(p, v));
    var i :| 0 <= i < |list| && list[i].questionnaire.id == q.id && list[i].rank <= ScopeRank(p, v);
    assert list[i] in list;
    RankMeaning(q, p, v);
    RankMeaning(list[i].questionnaire, list[i].publication, v);
  }

  /** The read as coded: the ordered rows, then one pass with a set of ids already seen. */
  method ListPublished(qs: seq<Questionnaire>, pubs: seq<Publication>, v: Viewer) returns (result: seq<Row>)
    ensures result == StudentList(qs, pubs, v)
  {
    var rows := Selected(qs, pubs, v);
    result := [];
    var seen: set<nat> := {};
    var i := 0;
    while i < |rows|
      invariant 0 <= i <= |rows|
      invariant result == KeepFirst(rows[..i])
      invariant seen == IdsOf(result)
    {
      var row := rows[i];
      assert rows[..i + 1][..i] == rows[..i];
      i := i + 1;
      if row.questionnaire.id in seen { continue; }
      IdsOfAppend(result, row);
      seen := seen + {row.questionnaire.id};
      result := result + [row];
    }
    assert rows[..i] == rows;
  }
}
