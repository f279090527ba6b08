/** Row-set vocabulary shared by the models: optional values and SQL's ORDER BY. */
module Tables {

  datatype Option<+T> = None | Some(value: T)

  lemma TakeNext<T>(rows: seq<T>, i: nat)
    requires i < |rows|
    ensures rows[..i + 1] == rows[..i] + [rows[i]]
  {}

  /** `le` can be the sort key of an ORDER BY clause. */
  ghost predicate TotalPreorder<T(!new)>(le: (T, T) -> bool) {
    && (forall a, b :: le(a, b) || le(b, a))
    && (forall a, b, c :: le(a, b) && le(b, c) ==> le(a, c))
  }

  ghost predicate Ascending<T>(rows: seq<T>, le: (T, T) -> bool) {
    forall i, j :: 0 <= i < j < |rows| ==> le(rows[i], rows[j])
  }

  function InsertRow<T>(row: T, rows: seq<T>, le: (T, T) -> bool): (out: seq<T>)
    ensures multiset(out) == multiset(rows) + multiset{row}
    ensures |out| == |rows| + 1
  {
    if rows == [] || le(row, rows[0]) then
      assert [row] + rows == [row] + rows[..];
      [row] + rows
    else
      assert rows == [rows[0]] + rows[1..];
      [rows[0]] + InsertRow(row, rows[1..], le)
  }

  /** ORDER BY: the same rows, arranged by `le`. */
  function OrderBy<T>(rows: seq<T>, le: (T, T) -> bool): (out: seq<T>)
    ensures multiset(out) == multiset(rows)
    ensures |out| == |rows|
  {
    if rows == [] then [] else
    assert rows == [rows[0]] + rows[1..];
    InsertRow(rows[0], OrderBy(rows[1..], le), le)
  }

  lemma {:induction false} InsertRowAscending<T(!new)>(row: T, rows: seq<T>, le: (T, T) -> bool)
    requires TotalPreorder(le) && Ascending(rows, le)
    ensures Ascending(InsertRow(row, rows, le), le)
  {
    if rows != [] && !le(row, rows[0]) {
      var tail := InsertRow(row, rows[1..], le);
      InsertRowAscending(row, rows[1..], le);
      forall x | x in tail ensures le(rows[0], x) {
        assert x in multiset(tail);
        assert x in multiset(rows[1..]) || x == row;
      }
    } else if rows != [] {
      forall j | 0 <= j < |rows| ensures le(row, rows[j]) {
        assert j == 0 || le(rows[0], rows[j]);
      }
    }
  }

  lemma {:induction false} OrderByAscending<T(!new)>(rows: seq<T>, le: (T, T) -> bool)
    requires TotalPreorder(le)
    ensures Ascending(OrderBy(rows, le), le)
  {
    if rows != [] {
      OrderByAscending(rows[1..], le);
      InsertRowAscending(rows[0], OrderBy(rows[1..], le), le);
    }
  }

  /** Rows that already are in order keep their places. */
  lemma {:induction false} OrderByFixpoint<T(!new)>(rows: seq<T>, le: (T, T) -> bool)
    requires Ascending(rows, le)
    ensures OrderBy(rows, le) == rows
  {
    if rows != [] {
      OrderByFixpoint(rows[1..], le);
      assert rows == [rows[0]] + rows[1..];
      assert |rows| > 1 ==> le(rows[0], rows[1]);
    }
  }
}
