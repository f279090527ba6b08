/**
 Student polling: the two read-only projections of /api/student/sync
 (routes/api.py) and what the browser page makes of their replies
 (routes/collab_pages.py), interleaved with the message writers.
 */
module RoomSync {
  import opened Tables
  import opened MessageLog
  import opened WriterRuns

  // ---------------------------------------------------------------- server projections

  const MAX_LIMIT: int := 120
  const WINDOW: nat := 350

  /** _safe_int(..., min_value=1, max_value=120); a missing limit is 120. */
  function Limit(raw: Option<int>): (limit: nat)
    ensures 1 <= limit <= 120
    ensures raw.Some? && 1 <= raw.value <= 120 ==> limit == raw.value
    ensures raw.None? || raw.value > 120 ==> limit == 120
  {
    var v := if raw.Some? then raw.value else MAX_LIMIT;
    if v < 1 then 1 else if v > MAX_LIMIT then MAX_LIMIT else v
  }

  /** Rows of the group with sequence > after, in table order. */
  function Newer(log: seq<Message>, group: int, after: nat): seq<Message> {
    if log == [] then [] else
    var m := log[|log| - 1];
    Newer(log[..|log| - 1], group, after) + if m.group == group && m.sequence > after then [m] else []
  }

  /** Rows of the group with low < sequence <= high, in table order. */
  function Between(log: seq<Message>, group: int, low: nat, high: nat): seq<Message> {
    if log == [] then [] else
    var m := log[|log| - 1];
    Between(log[..|log| - 1], group, low, high) + if m.group == group && low < m.sequence <= high then [m] else []
  }

  predicate BySequence(a: Message, b: Message) { a.sequence <= b.sequence }

  function Prefix<T>(rows: seq<T>, limit: nat): seq<T> { if |rows| <= limit then rows else rows[..limit] }

  function Suffix<T>(rows: seq<T>, limit: nat): seq<T> { if |rows| <= limit then rows else rows[|rows| - limit..] }

  /** The row query of _student_sync_room_events. */
  function EventRows(log: seq<Message>, group: int, after: nat, limit: nat): seq<Message> {
    Prefix(OrderBy(Newer(log, group, after), BySequence), limit)
  }

  function LargestSequence(rows: seq<Message>, floor: nat): nat {
    if rows == [] then floor else Max(LargestSequence(rows[..|rows| - 1], 0), rows[|rows| - 1].sequence)
  }

  function LargestId(rows: seq<Message>, floor: nat): nat {
    if rows == [] then floor else Max(LargestId(rows[..|rows| - 1], 0), rows[|rows| - 1].id)
  }

  /** next_sequence of a reply. */
  function NextCursor(rows: seq<Message>, after: nat): nat { LargestSequence(rows, after) }

  /** The chat filter: a running session restricts by number and task, no session shows the whole group. */
  datatype ChatScope = WholeGroup | OfSession(sessionNo: int, task: int)

  predicate InChat(m: Message, group: int, scope: ChatScope) {
    m.group == group && (scope.OfSession? ==> m.sessionNo == scope.sessionNo && m.task == Some(scope.task))
  }

  /** The group's chat in id order; the table is stored in id order. */
  function Chat(log: seq<Message>, group: int, scope: ChatScope): seq<Message> {
    if log == [] then [] else
    var m := log[|log| - 1];
    Chat(log[..|log| - 1], group, scope) + if InChat(m, group, scope) then [m] else []
  }

  function ChatAfter(rows: seq<Message>, id: nat): seq<Message> {
    if rows == [] then [] else
    var m := rows[|rows| - 1];
    ChatAfter(rows[..|rows| - 1], id) + if m.id > id then [m] else []
  }

  /** The row query of _student_sync_messages: newest rows first time, next rows afterwards. */
  function ChatRows(log: seq<Message>, group: int, scope: ChatScope, after: nat, limit: nat): seq<Message> {
    if after > 0 then Prefix(ChatAfter(Chat(log, group, scope), after), limit)
    else Suffix(Chat(log, group, scope), limit)
  }

  // ---------------------------------------------------------------- what the chat queries answer

  ghost predicate IdsUp(rows: seq<Message>) {
    && (forall i :: 0 <= i < |rows| ==> rows[i].id >= 1)
    && (forall i, j :: 0 <= i < j < |rows| ==> rows[i].id < rows[j].id)
  }

  /** The columns by which a row belongs to a chat; its role, writer and discussion do not matter. */
  predicate OfChat(m: Message, group: int, scope: ChatScope) {
    match scope
    case WholeGroup => m.group == group
    case OfSession(sessionNo, task) => m.group == group && m.sessionNo == sessionNo && m.task == Some(task)
  }

  /** A row on top keeps ids ascending. */
  lemma IdsUpOn(rows: seq<Message>, m: Message)
    requires IdsUp(rows) && m.id >= 1 && forall x :: x in rows ==> x.id < m.id
    ensures IdsUp(rows + [m])
  {
    forall i | 0 <= i < |rows| ensures rows[i].id < m.id { assert rows[i] in rows; }
  }

  lemma IdsUpSplit(init: seq<Message>, m: Message)
    requires IdsUp(init + [m])
    ensures IdsUp(init) && m.id >= 1 && forall x :: x in init ==> x.id < m.id
  {
    var rows := init + [m];
    assert rows[|init|] == m;
    assert forall i :: 0 <= i < |init| ==> rows[i] == init[i];
    forall x | x in init ensures x.id < m.id {
      var i :| 0 <= i < |init| && init[i] == x;
      assert rows[i].id < rows[|init|].id;
    }
  }

  lemma InChatExactly(m: Message, group: int, scope: ChatScope)
    ensures InChat(m, group, scope) <==> OfChat(m, group, scope)
  {}

  lemma {:induction false} ChatHolds(log: seq<Message>, group: int, scope: ChatScope, m: Message)
    ensures m in Chat(log, group, scope) <==> m in log && OfChat(m, group, scope)
  {
    if log != [] {
      var init, last := log[..|log| - 1], log[|log| - 1];
      assert log == init + [last];
      InChatExactly(last, group, scope);
      hide OfChat, InChat;
      ChatHolds(init, group, scope, m);
    }
  }

  lemma {:induction false} ChatAscends(log: seq<Message>, group: int, scope: ChatScope)
    requires IdsUp(log)
    ensures IdsUp(Chat(log, group, scope))
  {
    if log != [] {
      hide IdsUp, OfChat, InChat;
      var init, last := log[..|log| - 1], log[|log| - 1];
      assert log == init + [last];
      IdsUpSplit(init, last);
      ChatAscends(init, group, scope);
      if InChat(last, group, scope) {
        forall x | x in Chat(init, group, scope) ensures x.id < last.id { ChatHolds(init, group, scope, x); }
        IdsUpOn(Chat(init, group, scope), last);
      } else {
        assert Chat(log, group, scope) == Chat(init, group, scope);
      }
      assert IdsUp(Chat(log, group, scope));
    }
  }

  /** The chat is exactly the log's rows that belong to it, each once, in id order. */
  lemma ChatMeaning(log: seq<Message>, group: int, scope: ChatScope)
    requires IdsUp(log)
    ensures forall m :: m in Chat(log, group, scope) <==> m in log && OfChat(m, group, scope)
    ensures IdsUp(Chat(log, group, scope))
  {
    hide IdsUp, OfChat, Chat;
    forall m ensures m in Chat(log, group, scope) <==> m in log && OfChat(m, group, scope) {
      ChatHolds(log, group, scope, m);
    }
    ChatAscends(log, group, scope);
  }

  lemma {:induction false} ChatAfterHolds(rows: seq<Message>, id: nat, m: Message)
    ensures m in ChatAfter(rows, id) <==> m in rows && m.id > id
  {
    if rows != [] {
      assert rows == rows[..|rows| - 1] + [rows[|rows| - 1]];
      ChatAfterHolds(rows[..|rows| - 1], id, m);
    }
  }

  lemma {:induction false} ChatAfterAscends(rows: seq<Message>, id: nat)
    requires IdsUp(rows)
    ensures IdsUp(ChatAfter(rows, id))
  {
    if rows != [] {
      hide IdsUp;
      var init, last := rows[..|rows| - 1], rows[|rows| - 1];
      assert rows == init + [last];
      IdsUpSplit(init, last);
      ChatAfterAscends(init, id);
      if last.id > id {
        forall x | x in ChatAfter(init, id) ensures x.id < last.id { ChatAfterHolds(init, id, x); }
        IdsUpOn(ChatAfter(init, id), last);
      } else {
        assert ChatAfter(rows, id) == ChatAfter(init, id);
      }
      assert IdsUp(ChatAfter(rows, id));
    }
  }

  /** The rows after an id are exactly the rows with a larger id, in id order. */
  lemma ChatAfterMeaning(rows: seq<Message>, id: nat)
    requires IdsUp(rows)
    ensures forall m :: m in ChatAfter(rows, id) <==> m in rows && m.id > id
    ensures IdsUp(ChatAfter(rows, id))
  {
    hide IdsUp, ChatAfter;
    forall m ensures m in ChatAfter(rows, id) <==> m in rows && m.id > id { ChatAfterHolds(rows, id, m); }
    ChatAfterAscends(rows, id);
  }

  /**
   What a chat query answers: rows of the chat above the cursor, in id order; as many
   as there are, at most the limit; those it leaves out are newer than all it answers,
   or, on a first query, older.
   */
  lemma ChatRowsMeaning(log: seq<Message>, group: int, scope: ChatScope, after: nat, limit: nat)
    requires IdsUp(log)
    ensures var rows := ChatRows(log, group, scope, after, limit);
            && IdsUp(rows)
            && (forall m :: m in rows ==> m in log && OfChat(m, group, scope) && m.id > after)
            && |rows| <= limit
            && (forall m :: m in log && OfChat(m, group, scope) && m.id > after && m !in rows ==>
                  && |rows| == limit
                  && forall x :: x in rows ==> if after > 0 then x.id < m.id else m.id < x.id)
  {
    var chat := Chat(log, group, scope);
    ChatMeaning(log, group, scope);
    ChatAfterMeaning(chat, after);
    if after > 0 { PrefixMeaning(ChatAfter(chat, after), limit); } else { SuffixMeaning(chat, limit); }
    if after == 0 { AllAboveZero(chat); }
    hide IdsUp, Chat, ChatAfter, Prefix, Suffix, OfChat;
  }

  lemma AllAboveZero(rows: seq<Message>)
    requires IdsUp(rows)
    ensures forall m :: m in rows ==> m.id > 0
  {}

  lemma HalvesAscend(low: seq<Message>, high: seq<Message>)
    requires IdsUp(low + high)
    ensures IdsUp(low) && IdsUp(high)
  {
    var rows := low + high;
    assert forall i :: 0 <= i < |low| ==> rows[i] == low[i];
    assert forall k :: 0 <= k < |high| ==> rows[|low| + k] == high[k];
  }

  lemma HalvesApart(low: seq<Message>, high: seq<Message>, m: Message, x: Message)
    requires IdsUp(low + high) && m in low && x in high
    ensures m.id < x.id
  {
    var rows := low + high;
    var i :| 0 <= i < |low| && low[i] == m;
    var k :| 0 <= k < |high| && high[k] == x;
    assert rows[i] == m && rows[|low| + k] == x;
  }

  /** A cut through ascending rows: every row falls on one side, and the sides are ordered. */
  lemma SplitOrders(rows: seq<Message>, d: nat)
    requires IdsUp(rows) && d <= |rows|
    ensures IdsUp(rows[..d]) && IdsUp(rows[d..])
    ensures forall m :: m in rows <==> m in rows[..d] || m in rows[d..]
    ensures forall m, x :: m in rows[..d] && x in rows[d..] ==> m.id < x.id
  {
    hide IdsUp;
    var low, high := rows[..d], rows[d..];
    assert rows == low + high;
    HalvesAscend(low, high);
    forall m, x | m in low && x in high ensures m.id < x.id { HalvesApart(low, high, m, x); }
  }

  lemma PrefixMeaning(rows: seq<Message>, limit: nat)
    requires IdsUp(rows)
    ensures var first := Prefix(rows, limit);
            && IdsUp(first) && |first| <= limit && (forall m :: m in first ==> m in rows)
            && (forall m :: m in rows && m !in first ==> |first| == limit && forall x :: x in first ==> x.id < m.id)
  {
    hide IdsUp;
    if |rows| > limit {
      SplitOrders(rows, limit);
    }
  }

  lemma SuffixMeaning(rows: seq<Message>, limit: nat)
    requires IdsUp(rows)
    ensures var last := Suffix(rows, limit);
            && IdsUp(last) && |last| <= limit && (forall m :: m in last ==> m in rows)
            && (forall m :: m in rows && m !in last ==> |last| == limit && forall x :: x in last ==> m.id < x.id)
  {
    hide IdsUp;
    if |rows| > limit {
      SplitOrders(rows, |rows| - limit);
    }
  }

  // ---------------------------------------------------------------- event delivery

  /** In an ordered log the newest row tops its group. */
  lemma LastRowOnTop(log: seq<Message>)
    requires log != [] && Ordered(log)
    ensures Ordered(log[..|log| - 1])
    ensures forall x :: x in log[..|log| - 1] && x.group == log[|log| - 1].group ==>
        x.sequence < log[|log| - 1].sequence
  {
  }

  lemma AscendsOn(rows: seq<Message>, m: Message)
    requires forall i, j :: 0 <= i < j < |rows| ==> rows[i].sequence < rows[j].sequence
    requires forall x :: x in rows ==> x.sequence < m.sequence
    ensures forall i, j :: 0 <= i < j < |rows + [m]| ==> (rows + [m])[i].sequence < (rows + [m])[j].sequence
  {}

  /** In an ordered log the sort of the event query moves nothing. */
  lemma {:induction false} NewerAscends(log: seq<Message>, group: int, after: nat)
    requires Ordered(log)
    ensures var rows := Newer(log, group, after);
            && (forall m :: m in rows <==> m in log && m.group == group && m.sequence > after)
            && (forall i, j :: 0 <= i < j < |rows| ==> rows[i].sequence < rows[j].sequence)
  {
    if log != [] {
      var init, m := log[..|log| - 1], log[|log| - 1];
      assert log == init + [m];
      hide Ordered;
      LastRowOnTop(log);
      NewerAscends(init, group, after);
      if m.group == group && m.sequence > after { AscendsOn(Newer(init, group, after), m); }
    }
  }

  lemma EventRowsArePrefix(log: seq<Message>, group: int, after: nat, limit: nat)
    requires Ordered(log)
    ensures EventRows(log, group, after, limit) == Prefix(Newer(log, group, after), limit)
  {
    NewerAscends(log, group, after);
    var rows := Newer(log, group, after);
    assert Ascending(rows, BySequence) by {
      forall i, j | 0 <= i < j < |rows| ensures BySequence(rows[i], rows[j]) {
      }
    }
    OrderByFixpoint(rows, BySequence);
  }

  lemma {:induction false} BetweenEmpty(log: seq<Message>, group: int, low: nat, high: nat)
    requires forall x :: x in log && x.group == group ==> x.sequence <= low || x.sequence > high
    ensures Between(log, group, low, high) == []
  {
    if log != [] {
      assert log == log[..|log| - 1] + [log[|log| - 1]];
      BetweenEmpty(log[..|log| - 1], group, low, high);
    }
  }

  lemma {:induction false} NewerEmpty(log: seq<Message>, group: int, after: nat)
    requires forall x :: x in log && x.group == group ==> x.sequence <= after
    ensures Newer(log, group, after) == []
  {
    if log != [] {
      assert log == log[..|log| - 1] + [log[|log| - 1]];
      NewerEmpty(log[..|log| - 1], group, after);
    }
  }

  /** Rows above `low` are those up to `high` followed by those above `high`. */
  lemma {:induction false} NewerCut(log: seq<Message>, group: int, low: nat, high: nat)
    requires Ordered(log) && low <= high
    ensures Newer(log, group, low) == Between(log, group, low, high) + Newer(log, group, high)
  {
    if log != [] {
      var init, m := log[..|log| - 1], log[|log| - 1];
      NewerCut(init, group, low, high);
      if m.group == group && low < m.sequence <= high {
        LastRowOnTop(log);
        NewerEmpty(init, group, high);
      }
    }
  }

  /** The first k newer rows are one interval of sequences, and the rest is what the next poll sees. */
  lemma NewerSplit(log: seq<Message>, group: int, after: nat, k: nat)
    requires Ordered(log) && 1 <= k <= |Newer(log, group, after)|
    ensures var rows := Newer(log, group, after);
            && after < rows[k - 1].sequence
            && rows[..k] == Between(log, group, after, rows[k - 1].sequence)
            && rows[k..] == Newer(log, group, rows[k - 1].sequence)
  {
    NewerAscends(log, group, after);
    var rows := Newer(log, group, after);
    assert rows[k - 1] in rows;
    var h := rows[k - 1].sequence;
    NewerCut(log, group, after, h);
    BetweenMeaning(log, group, after, h);
    NewerAscends(log, group, h);
    var low, high := Between(log, group, after, h), Newer(log, group, h);
    assert rows == low + high;
    forall i | 0 <= i < |rows| ensures rows[i].sequence <= h <==> i < |low| {
      if i < |low| {
        assert low[i] in low;
      } else {
        assert high[i - |low|] in high;
      }
    }
    assert rows[k - 1].sequence <= h;
    assert k < |rows| ==> rows[k].sequence > h;
    assert |low| == k;
  }

  /** Adjacent intervals concatenate. */
  lemma {:induction false} BetweenJoins(log: seq<Message>, group: int, a: nat, b: nat, c: nat)
    requires Ordered(log) && a <= b <= c
    ensures Between(log, group, a, b) + Between(log, group, b, c) == Between(log, group, a, c)
  {
    if log != [] {
      var init, m := log[..|log| - 1], log[|log| - 1];
      BetweenJoins(init, group, a, b, c);
      if m.group == group && a < m.sequence <= b {
        LastRowOnTop(log);
        BetweenEmpty(init, group, b, c);
      }
    }
  }

  /** What an interval of the log is: the group's rows in it, each once, ascending. */
  lemma {:induction false} BetweenMeaning(log: seq<Message>, group: int, low: nat, high: nat)
    requires Ordered(log)
    ensures var rows := Between(log, group, low, high);
            && (forall m :: m in rows <==> m in log && m.group == group && low < m.sequence <= high)
            && (forall i, j :: 0 <= i < j < |rows| ==> rows[i].sequence < rows[j].sequence)
  {
    if log != [] {
      var init, m := log[..|log| - 1], log[|log| - 1];
      assert log == init + [m];
      hide Ordered;
      LastRowOnTop(log);
      BetweenMeaning(init, group, low, high);
      if m.group == group && low < m.sequence <= high { AscendsOn(Between(init, group, low, high), m); }
    }
  }

  lemma {:induction false} LargestOfAscending(rows: seq<Message>, floor: nat)
    requires rows != [] && forall i, j :: 0 <= i < j < |rows| ==> rows[i].sequence < rows[j].sequence
    ensures LargestSequence(rows, floor) == rows[|rows| - 1].sequence
  {
    if |rows| > 1 {
      LargestOfAscending(rows[..|rows| - 1], 0);
    }
  }

  lemma NextCursorOfPrefix(log: seq<Message>, group: int, after: nat, k: nat)
    requires Ordered(log) && 1 <= k <= |Newer(log, group, after)|
    ensures var rows := Newer(log, group, after);
            NextCursor(rows[..k], after) == rows[k - 1].sequence <= MaxSequence(log, group)
  {
    NewerAscends(log, group, after);
    var rows := Newer(log, group, after);
    LargestOfAscending(rows[..k], after);
    assert rows[k - 1] in rows;
  }

  /** One poll: the reply's rows are exactly the interval its cursor advances over. */
  lemma PollReturnsInterval(log: seq<Message>, group: int, after: nat, limit: nat)
    requires Ordered(log) && limit >= 1
    ensures var rows := EventRows(log, group, after, limit);
            && after <= NextCursor(rows, after)
            && rows == Between(log, group, after, NextCursor(rows, after))
            && (rows != [] ==> NextCursor(rows, after) <= MaxSequence(log, group))
            && |rows| <= |Newer(log, group, after)|
            && Newer(log, group, NextCursor(rows, after)) == Newer(log, group, after)[|rows|..]
  {
    EventRowsArePrefix(log, group, after, limit);
    var newer, rows := Newer(log, group, after), EventRows(log, group, after, limit);
    if newer == [] {
      BetweenEmpty(log, group, after, after);
    } else {
      var k := |rows|;
      assert rows == newer[..k];
      NewerSplit(log, group, after, k);
      NextCursorOfPrefix(log, group, after, k);
    }
  }

  function Poll(log: seq<Message>, group: int, after: nat, limit: nat): nat {
    NextCursor(EventRows(log, group, after, limit), after)
  }

  /** The cursor after one poll per limit, nothing being sent meanwhile. */
  function CursorAfterPolls(log: seq<Message>, group: int, after: nat, limits: seq<nat>): nat {
    if limits == [] then after else
    Poll(log, group, CursorAfterPolls(log, group, after, limits[..|limits| - 1]), limits[|limits| - 1])
  }

  function Sum(xs: seq<nat>): nat { if xs == [] then 0 else Sum(xs[..|xs| - 1]) + xs[|xs| - 1] }

  /** `k` less `taken`, not below zero. */
  function Remaining(k: nat, taken: nat): nat { if k <= taken then 0 else k - taken }

  lemma PollShrinksBacklog(log: seq<Message>, group: int, after: nat, limit: nat)
    requires Ordered(log) && limit >= 1
    ensures |Newer(log, group, Poll(log, group, after, limit))|
            == Remaining(|Newer(log, group, after)|, limit)
  {
    PollReturnsInterval(log, group, after, limit);
    EventRowsArePrefix(log, group, after, limit);
  }

  /** Once sends stop, each poll takes its limit off the backlog until nothing is left. */
  lemma {:induction false} BacklogDrains(log: seq<Message>, group: int, after: nat, limits: seq<nat>)
    requires Ordered(log) && forall i :: 0 <= i < |limits| ==> limits[i] >= 1
    ensures |Newer(log, group, CursorAfterPolls(log, group, after, limits))|
            == Remaining(|Newer(log, group, after)|, Sum(limits))
  {
    if limits != [] {
      var c := CursorAfterPolls(log, group, after, limits[..|limits| - 1]);
      BacklogDrains(log, group, after, limits[..|limits| - 1]);
      PollShrinksBacklog(log, group, c, limits[|limits| - 1]);
    }
  }

  lemma {:induction false} SumOfEqualLimits(limits: seq<nat>, limit: nat)
    requires forall i :: 0 <= i < |limits| ==> limits[i] == limit
    ensures Sum(limits) == |limits| * limit
  {
    if limits != [] {
      SumOfEqualLimits(limits[..|limits| - 1], limit);
      assert |limits| * limit == (|limits| - 1) * limit + limit;
    }
  }

  /** With one limit throughout, a backlog of k is gone after n polls exactly when n * limit >= k. */
  lemma BacklogGoneExactly(log: seq<Message>, group: int, after: nat, limits: seq<nat>, limit: nat)
    requires Ordered(log) && limit >= 1 && forall i :: 0 <= i < |limits| ==> limits[i] == limit
    ensures Newer(log, group, CursorAfterPolls(log, group, after, limits)) == []
            <==> |limits| * limit >= |Newer(log, group, after)|
  {
    BacklogDrains(log, group, after, limits);
    SumOfEqualLimits(limits, limit);
  }
}
