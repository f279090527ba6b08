/**
 The student page's cursors, single-flight sync and trimmed chat box
 (routes/collab_pages.py), and the whole system of writers and polling pages.
 */
module StudentPage {
  import opened Tables
  import opened MessageLog
  import opened WriterRuns
  import opened RoomSync

  // ---------------------------------------------------------------- the page

  datatype PageState = PageState(currentSequence: nat, lastMessageId: nat, box: seq<Message>)

  datatype Reply = Reply(chat: seq<Message>, latestId: nat, events: seq<Message>, nextSequence: nat)

  function ApplyRoomEvents(p: PageState, nextSequence: nat): PageState {
    p.(currentSequence := Max(p.currentSequence, nextSequence))
  }

  /** The first non-empty batch replaces the box; later ones are appended and the box is cut to its newest 350. */
  function ApplyMessages(p: PageState, messages: seq<Message>, latestId: nat): PageState {
    p.(lastMessageId := Max(p.lastMessageId, latestId),
       box := if messages == [] then p.box
              else if p.lastMessageId == 0 then messages
              else Suffix(p.box + messages, WINDOW))
  }

  function ApplyReply(p: PageState, r: Reply): PageState {
    ApplyMessages(ApplyRoomEvents(p, r.nextSequence), r.chat, r.latestId)
  }

  class ChatPage {
    var lastMessageId: nat
    var currentSequence: nat
    var syncInFlight: bool
    var box: seq<Message>

    function State(): PageState reads this { PageState(currentSequence, lastMessageId, box) }

    constructor ()
      ensures State() == PageState(0, 0, []) && !syncInFlight
    {
      lastMessageId, currentSequence, syncInFlight, box := 0, 0, false, [];
    }

    /** Up to the request: refused while another sync is in flight. */
    method BeginSync() returns (started: bool, afterMessageId: nat, afterSequence: nat)
      modifies this`syncInFlight
      ensures started == !old(syncInFlight) && syncInFlight
      ensures afterMessageId == lastMessageId && afterSequence == currentSequence
    {
      afterMessageId, afterSequence := lastMessageId, currentSequence;
      if syncInFlight { return false, lastMessageId, currentSequence; }
      syncInFlight := true;
      started := true;
    }

    /** From the response (None: failed or timed out) to the end of the sync. */
    method EndSync(reply: Option<Reply>)
      requires syncInFlight
      modifies this
      ensures !syncInFlight
      ensures State() == if reply.Some? then ApplyReply(old(State()), reply.value) else old(State())
    {
      if reply.Some? {
        var r := reply.value;
        if currentSequence < r.nextSequence { currentSequence := r.nextSequence; }
        ShowMessages(r.chat, r.latestId);
      }
      syncInFlight := false;
    }

    method ShowMessages(messages: seq<Message>, latestId: nat)
      modifies this`lastMessageId, this`box
      ensures State() == ApplyMessages(old(State()), messages, latestId)
    {
      var wasInitial := lastMessageId == 0;
      if lastMessageId < latestId { lastMessageId := latestId; }
      if wasInitial && messages != [] {
        box := messages;
      } else if !wasInitial && messages != [] {
        box := box + messages;
        ghost var full, shown := box, lastMessageId;
        while |box| > WINDOW
          invariant |box| <= |full| && box == full[|full| - |box|..]
          invariant |box| >= WINDOW || box == full
          invariant lastMessageId == shown
        {
          box := box[1..];
        }
      }
    }
  }

  // ---------------------------------------------------------------- the system

  /** One poll under way: the server reads chat and events at two separate moments. */
  datatype Flight = Flight(limit: nat, afterId: nat, afterSequence: nat,
                           chat: Option<seq<Message>>, from: nat, total: nat, events: Option<seq<Message>>)

  /**
   A page with its history: events `delivered` from `start` on, and chat rows
   `rendered`, the first of which was row `first` of the chat, chosen when the
   chat held `total` rows and the limit was `limit`.
   */
  datatype Page = Page(group: int, scope: ChatScope, start: nat, state: PageState, flight: Option<Flight>,
                       delivered: seq<Message>, rendered: seq<Message>, first: nat, total: nat, limit: nat)

  datatype PageAction = StartSync(rawLimit: Option<int>) | ReadChat | ReadEvents | Receive | Lose

  function NewPage(group: int, scope: ChatScope, start: nat): Page {
    Page(group, scope, start, PageState(start, 0, []), None, [], [], 0, 0, 1)
  }

  /** Where in the chat the rows of a chat query begin. */
  function ChatFrom(log: seq<Message>, group: int, scope: ChatScope, after: nat, limit: nat): nat {
    var chat := Chat(log, group, scope);
    if after > 0 then (if |ChatAfter(chat, after)| <= |chat| then |chat| - |ChatAfter(chat, after)| else 0)
    else |chat| - |Suffix(chat, limit)|
  }

  function ReplyOf(f: Flight): Reply
    requires f.chat.Some? && f.events.Some?
  {
    Reply(f.chat.value, LargestId(f.chat.value, f.afterId), f.events.value, NextCursor(f.events.value, f.afterSequence))
  }

  function PageStep(p: Page, log: seq<Message>, a: PageAction): Page {
    match a
    case StartSync(raw) =>
      if p.flight.Some? then p
      else p.(flight := Some(Flight(Limit(raw), p.state.lastMessageId, p.state.currentSequence, None, 0, 0, None)))
    case ReadChat =>
      if p.flight.None? || p.flight.value.chat.Some? then p else
      var f := p.flight.value;
      p.(flight := Some(f.(chat := Some(ChatRows(log, p.group, p.scope, f.afterId, f.limit)),
                           from := ChatFrom(log, p.group, p.scope, f.afterId, f.limit),
                           total := |Chat(log, p.group, p.scope)|)))
    case ReadEvents =>
      if p.flight.None? || p.flight.value.chat.None? || p.flight.value.events.Some? then p else
      var f := p.flight.value;
      p.(flight := Some(f.(events := Some(EventRows(log, p.group, f.afterSequence, f.limit)))))
    case Receive =>
      if p.flight.None? || p.flight.value.events.None? || p.flight.value.chat.None? then p else
      var f := p.flight.value;
      var opening := p.state.lastMessageId == 0 && f.chat.value != [];
      p.(state := ApplyReply(p.state, ReplyOf(f)), flight := None,
         delivered := p.delivered + f.events.value,
         rendered := if opening then f.chat.value else p.rendered + f.chat.value,
         first := if opening then f.from else p.first,
         total := if opening then f.total else p.total,
         limit := if opening then f.limit else p.limit)
    case Lose => p.(flight := None)
  }

  datatype Net = Net(server: Server, pages: map<int, Page>)

  datatype NetAction =
    | Write(action: Action)
    | Open(id: int, group: int, scope: ChatScope, start: nat)
    | OnPage(id: int, page: PageAction)

  function NetStep(n: Net, a: NetAction): Net {
    match a
    case Write(w) => n.(server := Step(n.server, w))
    case Open(id, group, scope, start) =>
      if id in n.pages then n else n.(pages := n.pages[id := NewPage(group, scope, start)])
    case OnPage(id, pa) =>
      if id in n.pages then n.(pages := n.pages[id := PageStep(n.pages[id], n.server.db.log, pa)]) else n
  }

  function NetRun(n: Net, actions: seq<NetAction>): Net {
    if actions == [] then n else NetStep(NetRun(n, actions[..|actions| - 1]), actions[|actions| - 1])
  }

  // ---------------------------------------------------------------- invariant

  /** The rows in (low, high] can no longer change. */
  ghost predicate Settled(log: seq<Message>, group: int, low: nat, high: nat) {
    low <= high && (low == high || high <= MaxSequence(log, group))
  }

  ghost predicate EventsInv(log: seq<Message>, p: Page) {
    var cur := p.state.currentSequence;
    && Settled(log, p.group, p.start, cur)
    && p.delivered == Between(log, p.group, p.start, cur)
    && (p.flight.Some? ==>
          var f := p.flight.value;
          && f.afterSequence == cur
          && f.limit >= 1
          && (f.events.Some? ==>
                && Settled(log, p.group, cur, NextCursor(f.events.value, cur))
                && f.events.value == Between(log, p.group, cur, NextCursor(f.events.value, cur))))
  }

  /** `rows` are the consecutive rows of `chat` that begin at `from`. */
  ghost predicate Slice(chat: seq<Message>, from: nat, rows: seq<Message>) {
    from + |rows| <= |chat| && rows == chat[from..from + |rows|]
  }

  function Least(a: nat, b: nat): nat { if a < b then a else b }

  /** A newest-rows window of `limit` out of `total` begins at `first`. */
  predicate OpensAt(first: nat, total: nat, limit: nat) { 1 <= limit <= 120 && first + Least(total, limit) == total }

  ghost predicate RenderedInv(chat: seq<Message>, p: Page) {
    && (p.state.lastMessageId == 0 <==> p.rendered == [])
    && p.state.box == Suffix(p.rendered, WINDOW)
    && (p.rendered != [] ==>
          && Slice(chat, p.first, p.rendered)
          && p.rendered[|p.rendered| - 1].id == p.state.lastMessageId
          && OpensAt(p.first, p.total, p.limit) && Least(p.total, p.limit) <= |p.rendered| && p.total <= |chat|)
  }

  ghost predicate ChatFlightInv(chat: seq<Message>, p: Page) {
    p.flight.Some? ==>
      var f := p.flight.value;
      && f.afterId == p.state.lastMessageId
      && 1 <= f.limit <= 120
      && (f.chat.Some? ==>
            && Slice(chat, f.from, f.chat.value)
            && f.total <= |chat|
            && (f.afterId > 0 ==> f.from == p.first + |p.rendered|)
            && (f.afterId == 0 ==> OpensAt(f.from, f.total, f.limit) && |f.chat.value| == Least(f.total, f.limit)))
  }

  ghost predicate ChatInv(log: seq<Message>, p: Page) {
    RenderedInv(Chat(log, p.group, p.scope), p) && ChatFlightInv(Chat(log, p.group, p.scope), p)
  }

  ghost predicate PageInv(log: seq<Message>, p: Page) { EventsInv(log, p) && ChatInv(log, p) }

  ghost predicate NetInv(n: Net) {
    && AppInv(n.server)
    && forall id :: id in n.pages ==> PageInv(n.server.db.log, n.pages[id])
  }

  // ---------------------------------------------------------------- writers do not disturb pages

  lemma BetweenSettled(log: seq<Message>, m: Message, group: int, low: nat, high: nat)
    requires Settled(log, group, low, high) && m.sequence == MaxSequence(log, m.group) + 1
    ensures Settled(log + [m], group, low, high)
    ensures Between(log + [m], group, low, high) == Between(log, group, low, high)
  {
    assert (log + [m])[..|log|] == log;
    MaxSequenceAppend(log, m, group);
  }

  lemma GrowthKeepsEvents(log: seq<Message>, m: Message, p: Page)
    requires EventsInv(log, p) && m.sequence == MaxSequence(log, m.group) + 1
    ensures EventsInv(log + [m], p)
  {
    var cur := p.state.currentSequence;
    BetweenSettled(log, m, p.group, p.start, cur);
    if p.flight.Some? && p.flight.value.events.Some? {
      BetweenSettled(log, m, p.group, cur, NextCursor(p.flight.value.events.value, cur));
    }
  }

  lemma GrowthKeepsChat(log: seq<Message>, m: Message, p: Page)
    requires ChatInv(log, p)
    ensures ChatInv(log + [m], p)
  {
    assert (log + [m])[..|log|] == log;
    var before, after := Chat(log, p.group, p.scope), Chat(log + [m], p.group, p.scope);
    assert after == before || after == before + [m];
    assert forall from: nat, rows :: Slice(before, from, rows) ==> Slice(after, from, rows);
  }

  lemma GrowthKeepsPage(before: seq<Message>, after: seq<Message>, p: Page)
    requires PageInv(before, p) && GrowsOnTop(before, after)
    ensures PageInv(after, p)
  {
    if after != before {
      var m := after[|before|];
      assert after == before + [m];
      GrowthKeepsEvents(before, m, p);
      GrowthKeepsChat(before, m, p);
    }
  }

  lemma WriteKeepsNetInv(n: Net, w: Action)
    requires NetInv(n) && !w.Insert?
    ensures NetInv(NetStep(n, Write(w)))
  {
    StepKeepsAppInv(n.server, w);
    StepGrowsOnTop(n.server, w);
    forall id | id in n.pages ensures PageInv(Step(n.server, w).db.log, n.pages[id]) {
      GrowthKeepsPage(n.server.db.log, Step(n.server, w).db.log, n.pages[id]);
    }
  }

  // ---------------------------------------------------------------- page steps

  lemma PageStepKeepsEvents(log: seq<Message>, p: Page, a: PageAction)
    requires Ordered(log) && EventsInv(log, p)
    ensures EventsInv(log, PageStep(p, log, a))
  {
    match a {
      case ReadEvents =>
        if p.flight.Some? {
          PollReturnsInterval(log, p.group, p.flight.value.afterSequence, p.flight.value.limit);
        }
      case Receive =>
        if p.flight.Some? && p.flight.value.events.Some? {
          var cur := p.state.currentSequence;
          BetweenJoins(log, p.group, p.start, cur, NextCursor(p.flight.value.events.value, cur));
        }
      case _ =>
    }
  }

  lemma ChatIdsUp(log: seq<Message>, group: int, scope: ChatScope)
    requires IdsUp(log)
    ensures IdsUp(Chat(log, group, scope))
  {
    ChatMeaning(log, group, scope);
  }

  lemma {:induction false} ChatAfterSplit(rows: seq<Message>, k: nat)
    requires IdsUp(rows) && 1 <= k <= |rows|
    ensures ChatAfter(rows, rows[k - 1].id) == rows[k..]
  {
    var init := rows[..|rows| - 1];
    if k == |rows| {
      ChatAfterNothing(init, rows[k - 1].id);
    } else {
      ChatAfterSplit(init, k);
      assert init[k - 1] == rows[k - 1];
      assert rows[k..] == init[k..] + [rows[|rows| - 1]];
    }
  }

  lemma {:induction false} ChatAfterNothing(rows: seq<Message>, id: nat)
    requires forall i :: 0 <= i < |rows| ==> rows[i].id <= id
    ensures ChatAfter(rows, id) == []
  {
    if rows != [] {
      ChatAfterNothing(rows[..|rows| - 1], id);
    }
  }

  lemma {:induction false} LargestIdOfRows(rows: seq<Message>, floor: nat)
    requires IdsUp(rows)
    ensures LargestId(rows, floor) == if rows == [] then floor else rows[|rows| - 1].id
  {
    if |rows| > 1 {
      LargestIdOfRows(rows[..|rows| - 1], 0);
    }
  }

  /** A first chat query answers with the newest rows. */
  lemma OpeningRows(log: seq<Message>, group: int, scope: ChatScope, limit: nat)
    requires 1 <= limit <= 120
    ensures var rows, from := ChatRows(log, group, scope, 0, limit), ChatFrom(log, group, scope, 0, limit);
            var chat := Chat(log, group, scope);
            Slice(chat, from, rows) && OpensAt(from, |chat|, limit) && |rows| == Least(|chat|, limit)
  {
  }

  lemma PrefixIsSlice(chat: seq<Message>, k: nat, limit: nat)
    requires k <= |chat|
    ensures Slice(chat, k, Prefix(chat[k..], limit)) && |Prefix(chat[k..], limit)| == Least(|chat| - k, limit)
  {}

  /** A later chat query answers with the rows that follow the newest row shown. */
  lemma FollowingRows(log: seq<Message>, group: int, scope: ChatScope, k: nat, limit: nat)
    requires IdsUp(log) && 1 <= k <= |Chat(log, group, scope)|
    ensures var chat := Chat(log, group, scope);
            var after := chat[k - 1].id;
            var rows := ChatRows(log, group, scope, after, limit);
            Slice(chat, k, rows) && |rows| == Least(|chat| - k, limit) && ChatFrom(log, group, scope, after, limit) == k
  {
    var chat := Chat(log, group, scope);
    ChatIdsUp(log, group, scope);
    ChatAfterSplit(chat, k);
    assert chat[k - 1].id >= 1;
    PrefixIsSlice(chat, k, limit);
    hide Chat, ChatAfter, Slice, Prefix, Suffix, IdsUp;
  }

  lemma ReadChatKeeps(log: seq<Message>, p: Page)
    requires IdsUp(log) && ChatInv(log, p)
    ensures ChatInv(log, PageStep(p, log, ReadChat))
  {
    hide Chat, ChatRows, ChatFrom, IdsUp, Suffix, OpensAt;
    if p.flight.Some? && p.flight.value.chat.None? {
      var f := p.flight.value;
      if f.afterId == 0 {
        OpeningRows(log, p.group, p.scope, f.limit);
      } else {
        assert p.rendered[|p.rendered| - 1] == Chat(log, p.group, p.scope)[p.first + |p.rendered| - 1];
        FollowingRows(log, p.group, p.scope, p.first + |p.rendered|, f.limit);
      }
    }
  }

  lemma DropFirst<T>(xs: seq<T>, ys: seq<T>, d: nat)
    requires d <= |xs|
    ensures (xs + ys)[d..] == xs[d..] + ys
  {}

  lemma SuffixAfterDrop<T>(zs: seq<T>, d: nat, n: nat)
    requires n + d <= |zs|
    ensures Suffix(zs[d..], n) == Suffix(zs, n)
  {
    assert zs[d..][|zs| - d - n..] == zs[|zs| - n..];
  }

  lemma SuffixOfSuffix<T>(xs: seq<T>, ys: seq<T>, n: nat)
    ensures Suffix(Suffix(xs, n) + ys, n) == Suffix(xs + ys, n)
  {
    if |xs| > n {
      var d := |xs| - n;
      DropFirst(xs, ys, d);
      SuffixAfterDrop(xs + ys, d, n);
    }
  }

  lemma SlicesJoin(chat: seq<Message>, from: nat, xs: seq<Message>, ys: seq<Message>)
    requires Slice(chat, from, xs) && Slice(chat, from + |xs|, ys)
    ensures Slice(chat, from, xs + ys)
  {
  }

  /** The reply's latest id is its last row's, or the cursor when it has none. */
  lemma LatestIdOfSlice(chat: seq<Message>, from: nat, rows: seq<Message>, floor: nat)
    requires IdsUp(chat) && Slice(chat, from, rows)
    ensures LargestId(rows, floor) == if rows == [] then floor else rows[|rows| - 1].id
    ensures rows != [] && from > 0 ==> chat[from - 1].id < rows[|rows| - 1].id
    ensures rows != [] ==> rows[|rows| - 1].id >= 1
  {
    LargestIdOfRows(rows, floor);
  }

  /** The first rows shown: the window the flight fetched. */
  lemma OpeningKeepsRendered(chat: seq<Message>, p: Page, f: Flight)
    requires IdsUp(chat) && RenderedInv(chat, p) && p.flight == Some(f) && ChatFlightInv(chat, p)
    requires f.chat.Some? && f.chat.value != [] && p.rendered == []
    ensures RenderedInv(chat, p.(state := p.state.(lastMessageId := f.chat.value[|f.chat.value| - 1].id,
                                                   box := f.chat.value),
                                 rendered := f.chat.value, first := f.from, total := f.total, limit := f.limit))
  {
    LatestIdOfSlice(chat, f.from, f.chat.value, f.afterId);
  }

  /** Later rows follow on, and the box is cut to its window. */
  lemma AppendingKeepsRendered(chat: seq<Message>, p: Page, f: Flight)
    requires IdsUp(chat) && RenderedInv(chat, p) && p.flight == Some(f) && ChatFlightInv(chat, p)
    requires f.chat.Some? && f.chat.value != [] && p.rendered != []
    ensures RenderedInv(chat, p.(state := p.state.(lastMessageId := f.chat.value[|f.chat.value| - 1].id,
                                                   box := Suffix(p.state.box + f.chat.value, WINDOW)),
                                 rendered := p.rendered + f.chat.value))
  {
    hide IdsUp, Suffix, Slice;
    var rows := f.chat.value;
    assert rows[|rows| - 1].id >= 1 by { LatestIdOfSlice(chat, f.from, rows, f.afterId); }
    assert (p.rendered + rows)[|p.rendered + rows| - 1] == rows[|rows| - 1];
    assert Slice(chat, p.first, p.rendered + rows) by { SlicesJoin(chat, p.first, p.rendered, rows); }
    assert Suffix(p.state.box + rows, WINDOW) == Suffix(p.rendered + rows, WINDOW)
        by { SuffixOfSuffix(p.rendered, rows, WINDOW); }
  }

  /** The cursor after a reply: its last row's id, or unchanged when it has none. */
  lemma CursorAfterReply(chat: seq<Message>, p: Page, f: Flight)
    requires IdsUp(chat) && RenderedInv(chat, p) && p.flight == Some(f) && ChatFlightInv(chat, p) && f.chat.Some?
    ensures var rows := f.chat.value;
            Max(p.state.lastMessageId, LargestId(rows, f.afterId)) ==
            if rows == [] then p.state.lastMessageId else rows[|rows| - 1].id
  {
    LatestIdOfSlice(chat, f.from, f.chat.value, f.afterId);
    if p.rendered != [] {
      assert p.rendered[|p.rendered| - 1] == chat[p.first + |p.rendered| - 1];
    }
  }

  /** What receiving does to the chat half of a page. */
  lemma ReceivedPage(log: seq<Message>, p: Page, f: Flight)
    requires IdsUp(log) && ChatInv(log, p) && p.flight == Some(f) && f.chat.Some? && f.events.Some?
    ensures var after, rows := PageStep(p, log, Receive), f.chat.value;
            && after.flight.None? && after.group == p.group && after.scope == p.scope
            && after.state.lastMessageId == (if rows == [] then p.state.lastMessageId else rows[|rows| - 1].id)
            && after.state.box == (if rows == [] then p.state.box else if p.rendered == [] then rows
                else Suffix(p.state.box + rows, WINDOW))
            && after.rendered == (if p.rendered == [] then rows else p.rendered + rows)
            && (rows == [] || p.rendered != [] ==>
                after.first == p.first && after.total == p.total && after.limit == p.limit)
            && (rows != [] && p.rendered == [] ==>
                after.first == f.from && after.total == f.total && after.limit == f.limit)
  {
    ChatIdsUp(log, p.group, p.scope);
    CursorAfterReply(Chat(log, p.group, p.scope), p, f);
    assert p.state.lastMessageId == 0 <==> p.rendered == [];
    hide RenderedInv, ChatFlightInv, IdsUp, Chat, LargestId, NextCursor, Suffix, Max;
  }

  lemma ReceiveKeepsChat(log: seq<Message>, p: Page)
    requires IdsUp(log) && ChatInv(log, p)
    ensures ChatInv(log, PageStep(p, log, Receive))
  {
    if p.flight.Some? && p.flight.value.chat.Some? && p.flight.value.events.Some? {
      var chat, f := Chat(log, p.group, p.scope), p.flight.value;
      ReceivedPage(log, p, f);
      assert IdsUp(chat) by { ChatIdsUp(log, p.group, p.scope); }
      if f.chat.value == [] {
        assert p.rendered + f.chat.value == p.rendered;
      } else if p.rendered == [] {
        OpeningKeepsRendered(chat, p, f);
      } else {
        AppendingKeepsRendered(chat, p, f);
      }
    }
  }

  lemma PageStepKeepsChat(log: seq<Message>, p: Page, a: PageAction)
    requires IdsUp(log) && ChatInv(log, p)
    ensures ChatInv(log, PageStep(p, log, a))
  {
    match a {
      case ReadChat => ReadChatKeeps(log, p);
      case Receive => ReceiveKeepsChat(log, p);
      case _ =>
    }
  }

  lemma PageStepKeepsInv(log: seq<Message>, p: Page, a: PageAction)
    requires IdsUp(log) && Ordered(log) && PageInv(log, p)
    ensures PageInv(log, PageStep(p, log, a))
  {
    PageStepKeepsEvents(log, p, a);
    PageStepKeepsChat(log, p, a);
  }

  lemma NewPageInv(log: seq<Message>, group: int, scope: ChatScope, start: nat)
    ensures PageInv(log, NewPage(group, scope, start))
  {
    BetweenEmpty(log, group, start, start);
  }

  /** Putting one consistent page in place keeps the net consistent. */
  lemma ReplacedPageKeepsInv(n: Net, id: int, p: Page)
    requires NetInv(n) && PageInv(n.server.db.log, p)
    ensures NetInv(n.(pages := n.pages[id := p]))
  {}

  lemma LogOfNet(n: Net)
    requires NetInv(n)
    ensures IdsUp(n.server.db.log) && Ordered(n.server.db.log)
  {}

  lemma OnPageKeepsNetInv(n: Net, id: int, a: PageAction)
    requires NetInv(n)
    ensures NetInv(NetStep(n, OnPage(id, a)))
  {
    if id in n.pages {
      LogOfNet(n);
      PageStepKeepsInv(n.server.db.log, n.pages[id], a);
      ReplacedPageKeepsInv(n, id, PageStep(n.pages[id], n.server.db.log, a));
    }
  }

  lemma NetStepKeepsInv(n: Net, a: NetAction)
    requires NetInv(n) && (a.Write? ==> !a.action.Insert?)
    ensures NetInv(NetStep(n, a))
  {
    match a {
      case Write(w) => WriteKeepsNetInv(n, w);
      case Open(id, group, scope, start) =>
        NewPageInv(n.server.db.log, group, scope, start);
        ReplacedPageKeepsInv(n, id, NewPage(group, scope, start));
      case OnPage(id, pa) => OnPageKeepsNetInv(n, id, pa);
    }
  }

  lemma {:induction false} NetRunKeepsInv(n: Net, actions: seq<NetAction>)
    requires NetInv(n)
    requires forall i :: 0 <= i < |actions| && actions[i].Write? ==> !actions[i].action.Insert?
    ensures NetInv(NetRun(n, actions))
  {
    if actions != [] {
      NetRunKeepsInv(n, actions[..|actions| - 1]);
      NetStepKeepsInv(NetRun(n, actions[..|actions| - 1]), actions[|actions| - 1]);
    }
  }

  // ---------------------------------------------------------------- main results

  /**
   Exactly-once ordered delivery. However writers and any number of pages are
   interleaved, each page's event batches joined together are the group's
   messages with sequence in (start, cursor]: each once, ascending, none missing.
   */
  lemma EventsDeliveredExactlyOnce(n: Net, actions: seq<NetAction>, id: int)
    requires NetInv(n) && id in NetRun(n, actions).pages
    requires forall i :: 0 <= i < |actions| && actions[i].Write? ==> !actions[i].action.Insert?
    ensures var after := NetRun(n, actions);
            var log, p := after.server.db.log, after.pages[id];
            && p.delivered == Between(log, p.group, p.start, p.state.currentSequence)
            && (forall m :: m in p.delivered <==>
                  m in log && m.group == p.group && p.start < m.sequence <= p.state.currentSequence)
            && (forall i, j :: 0 <= i < j < |p.delivered| ==> p.delivered[i].sequence < p.delivered[j].sequence)
  {
    NetRunKeepsInv(n, actions);
    var after := NetRun(n, actions);
    var p := after.pages[id];
    BetweenMeaning(after.server.db.log, p.group, p.start, p.state.currentSequence);
  }

  /** A slice of ascending rows holds exactly those between its first id and its last. */
  lemma SliceMeaning(chat: seq<Message>, from: nat, rows: seq<Message>)
    requires IdsUp(chat) && Slice(chat, from, rows) && rows != []
    ensures IdsUp(rows)
    ensures forall m :: m in rows <==> m in chat && rows[0].id <= m.id <= rows[|rows| - 1].id
  {
    forall m ensures m in rows <==> m in chat && rows[0].id <= m.id <= rows[|rows| - 1].id {
      if m in rows {
        var k :| 0 <= k < |rows| && rows[k] == m;
        assert chat[from + k] == m;
      }
      if m in chat && rows[0].id <= m.id <= rows[|rows| - 1].id {
        var i :| 0 <= i < |chat| && chat[i] == m;
        assert chat[from] == rows[0] && chat[from + |rows| - 1] == rows[|rows| - 1];
        assert from <= i < from + |rows|;
        assert rows[i - from] == m;
      }
    }
  }

  /**
   The chat a page has rendered is one unbroken run of the filtered log that begins
   with the newest-rows window it opened with: exactly the log's rows of the chat,
   whoever wrote them, from the first rendered id to lastMessageId, each once, in
   id order. The visible box is the newest 350 rows of that run.
   */
  lemma RenderedChatIsUnbroken(n: Net, actions: seq<NetAction>, id: int)
    requires NetInv(n) && id in NetRun(n, actions).pages
    requires forall i :: 0 <= i < |actions| && actions[i].Write? ==> !actions[i].action.Insert?
    ensures var after := NetRun(n, actions);
            var log, p := after.server.db.log, after.pages[id];
            && RenderedInv(Chat(log, p.group, p.scope), p)
            && IdsUp(p.rendered)
            && (p.rendered == [] <==> p.state.lastMessageId == 0)
            && (p.rendered != [] ==> forall m :: m in p.rendered <==>
                  m in log && OfChat(m, p.group, p.scope) && p.rendered[0].id <= m.id <= p.state.lastMessageId)
            && |p.state.box| == Least(|p.rendered|, 350) && p.state.box == p.rendered[|p.rendered| - |p.state.box|..]
  {
    NetRunKeepsInv(n, actions);
    var after := NetRun(n, actions);
    var log, p := after.server.db.log, after.pages[id];
    LogOfNet(after);
    RenderedMeaning(log, p);
  }

  lemma RenderedMeaning(log: seq<Message>, p: Page)
    requires IdsUp(log) && RenderedInv(Chat(log, p.group, p.scope), p)
    ensures IdsUp(p.rendered)
    ensures p.rendered != [] ==> forall m :: m in p.rendered <==>
        m in log && OfChat(m, p.group, p.scope) && p.rendered[0].id <= m.id <= p.state.lastMessageId
    ensures |p.state.box| == Least(|p.rendered|, 350) && p.state.box == p.rendered[|p.rendered| - |p.state.box|..]
  {
    BoxIsNewest(p.rendered);
    hide OfChat, Chat, IdsUp, Slice, OpensAt, Suffix;
    var chat := Chat(log, p.group, p.scope);
    ChatMeaning(log, p.group, p.scope);
    if p.rendered == [] { NothingAscends(); } else { SliceMeaning(chat, p.first, p.rendered); }
  }

  lemma NothingAscends()
    ensures IdsUp([])
  {}

  lemma BoxIsNewest(rows: seq<Message>)
    ensures var box := Suffix(rows, WINDOW); |box| == Least(|rows|, 350) && box == rows[|rows| - |box|..]
  {}

  /** Where in the chat the cursor stands. */
  lemma CursorInChat(chat: seq<Message>, p: Page)
    requires RenderedInv(chat, p) && p.state.lastMessageId != 0
    ensures var k := p.first + |p.rendered|; 1 <= k <= |chat| && chat[k - 1].id == p.state.lastMessageId
  {
    assert p.rendered[|p.rendered| - 1] == chat[p.first + |p.rendered| - 1];
  }

  // ---------------------------------------------------------------- a sync makes progress

  /** A sync that nothing disturbs: request, both reads, response. */
  function Synced(p: Page, log: seq<Message>, raw: Option<int>): Page {
    PageStep(PageStep(PageStep(PageStep(p, log, StartSync(raw)), log, ReadChat), log, ReadEvents), log, Receive)
  }

  /** What such a sync receives. */
  lemma SyncedPage(log: seq<Message>, p: Page, raw: Option<int>)
    requires p.flight.None?
    ensures var chat := ChatRows(log, p.group, p.scope, p.state.lastMessageId, Limit(raw));
            var events := EventRows(log, p.group, p.state.currentSequence, Limit(raw));
            var q := Synced(p, log, raw);
            && q.flight.None? && q.group == p.group && q.scope == p.scope && q.delivered == p.delivered + events
            && q.state.currentSequence == Max(p.state.currentSequence, NextCursor(events, p.state.currentSequence))
            && q.state.lastMessageId == Max(p.state.lastMessageId, LargestId(chat, p.state.lastMessageId))
  {
    hide ChatRows, EventRows, ChatFrom, Chat, LargestId, NextCursor, Suffix, Limit;
  }

  lemma SyncDrainsEvents(log: seq<Message>, p: Page, raw: Option<int>)
    requires Ordered(log) && p.flight.None?
    ensures |Newer(log, p.group, Synced(p, log, raw).state.currentSequence)| ==
            Remaining(|Newer(log, p.group, p.state.currentSequence)|, Limit(raw))
  {
    SyncedPage(log, p, raw);
    PollReturnsInterval(log, p.group, p.state.currentSequence, Limit(raw));
    PollShrinksBacklog(log, p.group, p.state.currentSequence, Limit(raw));
    hide Newer, EventRows, NextCursor, Between, Ordered;
  }

  /** What is left behind the rows of a slice. */
  lemma SliceDrains(chat: seq<Message>, from: nat, rows: seq<Message>, shown: nat)
    requires IdsUp(chat) && from > 0 && Slice(chat, from, rows) && shown == chat[from - 1].id
    ensures |ChatAfter(chat, Max(shown, LargestId(rows, shown)))| == |chat| - from - |rows|
  {
    LatestIdOfSlice(chat, from, rows, shown);
    ChatAfterSplit(chat, from + |rows|);
    hide ChatAfter, LargestId;
    assert rows != [] ==> rows[|rows| - 1] == chat[from + |rows| - 1];
  }

  /** Where a chat query leaves the cursor, k rows of the chat being shown. */
  lemma FollowingDrains(log: seq<Message>, group: int, scope: ChatScope, k: nat, limit: nat)
    requires IdsUp(log) && 1 <= k <= |Chat(log, group, scope)|
    ensures var chat := Chat(log, group, scope);
            var shown := chat[k - 1].id;
            var next := Max(shown, LargestId(ChatRows(log, group, scope, shown, limit), shown));
            |ChatAfter(chat, next)| == Remaining(|ChatAfter(chat, shown)|, limit)
  {
    var chat := Chat(log, group, scope);
    ChatIdsUp(log, group, scope);
    FollowingRows(log, group, scope, k, limit);
    var shown := chat[k - 1].id;
    hide Chat, ChatRows, ChatAfter, LargestId, IdsUp, Slice, ChatFrom;
    SliceDrains(chat, k, ChatRows(log, group, scope, shown, limit), shown);
    ChatAfterSplit(chat, k);
  }

  lemma LastShown(chat: seq<Message>, from: nat, rows: seq<Message>)
    requires IdsUp(chat) && Slice(chat, from, rows) && from + |rows| == |chat| && rows != []
    ensures ChatAfter(chat, LargestId(rows, 0)) == []
  {
    LatestIdOfSlice(chat, from, rows, 0);
    ChatAfterSplit(chat, |chat|);
    hide ChatAfter, LargestId;
    assert rows[|rows| - 1] == chat[|chat| - 1];
  }

  lemma OpeningDrains(log: seq<Message>, group: int, scope: ChatScope, limit: nat)
    requires IdsUp(log) && 1 <= limit <= 120
    ensures |ChatAfter(Chat(log, group, scope), Max(0, LargestId(ChatRows(log, group, scope, 0, limit), 0)))| == 0
  {
    var chat, rows := Chat(log, group, scope), ChatRows(log, group, scope, 0, limit);
    ChatIdsUp(log, group, scope);
    OpeningRows(log, group, scope, limit);
    if chat == [] {
      assert rows == [];
    } else {
      hide Chat, ChatRows, ChatAfter, LargestId, ChatFrom, IdsUp, Slice;
      var from := ChatFrom(log, group, scope, 0, limit);
      assert from + |rows| == |chat|;
      LastShown(chat, from, rows);
    }
  }

  /** Where the next chat query leaves the cursor of a page. */
  lemma CursorDrains(log: seq<Message>, p: Page, limit: nat)
    requires IdsUp(log) && RenderedInv(Chat(log, p.group, p.scope), p) && 1 <= limit <= 120
    ensures var chat, shown := Chat(log, p.group, p.scope), p.state.lastMessageId;
            var next := Max(shown, LargestId(ChatRows(log, p.group, p.scope, shown, limit), shown));
            |ChatAfter(chat, next)| == if shown == 0 then 0 else Remaining(|ChatAfter(chat, shown)|, limit)
  {
    var chat := Chat(log, p.group, p.scope);
    if p.state.lastMessageId == 0 {
      hide *;
      OpeningDrains(log, p.group, p.scope, limit);
    } else {
      CursorInChat(chat, p);
      hide *;
      FollowingDrains(log, p.group, p.scope, p.first + |p.rendered|, limit);
    }
  }

  lemma SyncDrainsChat(log: seq<Message>, p: Page, raw: Option<int>)
    requires IdsUp(log) && RenderedInv(Chat(log, p.group, p.scope), p) && p.flight.None?
    ensures var chat := Chat(log, p.group, p.scope);
            |ChatAfter(chat, Synced(p, log, raw).state.lastMessageId)| ==
            if p.state.lastMessageId == 0 then 0 else Remaining(|ChatAfter(chat, p.state.lastMessageId)|, Limit(raw))
  {
    hide *;
    SyncedPage(log, p, raw);
    CursorDrains(log, p, Limit(raw));
  }

  /** A sync whose answer fails or times out leaves the page as it was, however far the server had got. */
  lemma LostSyncLeavesPage(p: Page, raw: Option<int>, log: seq<Message>, later: seq<Message>)
    requires p.flight.None?
    ensures var started := PageStep(p, log, StartSync(raw));
            var read := PageStep(started, log, ReadChat);
            && PageStep(started, log, Lose) == p && PageStep(read, later, Lose) == p
            && PageStep(PageStep(read, later, ReadEvents), later, Lose) == p
  {
    hide ChatRows, ChatFrom, EventRows;
  }

  /**
   Progress: in any reachable state one undisturbed sync takes its limit off the page's
   backlog of events and of chat rows, down to nothing; the first one shows the newest row.
   */
  lemma SyncDrains(n: Net, actions: seq<NetAction>, id: int, raw: Option<int>)
    requires NetInv(n) && id in NetRun(n, actions).pages && NetRun(n, actions).pages[id].flight.None?
    requires forall i :: 0 <= i < |actions| && actions[i].Write? ==> !actions[i].action.Insert?
    ensures var after := NetRun(n, actions);
            var log, p := after.server.db.log, after.pages[id];
            var chat, q := Chat(log, p.group, p.scope), Synced(p, log, raw);
            && |Newer(log, p.group, q.state.currentSequence)| ==
               Remaining(|Newer(log, p.group, p.state.currentSequence)|, Limit(raw))
            && |ChatAfter(chat, q.state.lastMessageId)| ==
               if p.state.lastMessageId == 0 then 0 else Remaining(|ChatAfter(chat, p.state.lastMessageId)|, Limit(raw))
  {
    NetRunKeepsInv(n, actions);
    var after := NetRun(n, actions);
    LogOfNet(after);
    hide Synced, Newer, ChatAfter, Chat, Remaining;
    SyncDrainsEvents(after.server.db.log, after.pages[id], raw);
    SyncDrainsChat(after.server.db.log, after.pages[id], raw);
  }
}
