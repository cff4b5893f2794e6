/** The scans behind `rsntr await`: two append-only tables read past two cursors,
    and `catch_up`, which picks the oldest unseen event of the two. */
module Feeds {
  import opened AuthTypes

  /** A `chat_messages` row; `receivedAt` orders as the RFC 3339 text does. */
  datatype ChatRow = ChatRow(rowid: int, id: string, sender: string, receivedAt: int)

  /** An `_inbox` row; no decision is a row still waiting for the owner. */
  datatype InboxRow = InboxRow(rowid: int, id: string, receivedAt: int, decision: Option<string>)

  /** What a scan looks at: `skip` is an own send, or a request already decided. */
  datatype Row = Row(rowid: int, at: int, skip: bool)

  datatype Stream = Chat | Inbox

  datatype Event = Event(stream: Stream, rowid: int)

  datatype Cursor = Cursor(chat: int, inbox: int)
  {
    function At(stream: Stream): int {
      if stream == Chat then chat else inbox
    }
  }

  function ChatFeed(chat: seq<ChatRow>, self: string): (feed: seq<Row>)
    ensures |feed| == |chat|
  {
    seq(|chat|, i requires 0 <= i < |chat| => Row(chat[i].rowid, chat[i].receivedAt, chat[i].sender == self))
  }

  function InboxFeed(inbox: seq<InboxRow>): (feed: seq<Row>)
    ensures |feed| == |inbox|
  {
    seq(|inbox|, i requires 0 <= i < |inbox| => Row(inbox[i].rowid, inbox[i].receivedAt, inbox[i].decision.Some?))
  }

  /** Rowids are positive and grow. */
  predicate Ordered(feed: seq<Row>) {
    && (forall i :: 0 <= i < |feed| ==> feed[i].rowid > 0)
    && (forall i, j :: 0 <= i < j < |feed| ==> feed[i].rowid < feed[j].rowid)
  }

  // ----- the scans -----

  /** The events past a cursor, in rowid order. */
  function Unseen(feed: seq<Row>, cursor: int): seq<Row> {
    if feed == [] then []
    else (if feed[0].rowid > cursor && !feed[0].skip then [feed[0]] else []) + Unseen(feed[1..], cursor)
  }

  /** The cursor advanced over every row scanned. */
  function Tip(feed: seq<Row>, cursor: int): int {
    if feed == [] then cursor
    else Tip(feed[1..], if feed[0].rowid > cursor then feed[0].rowid else cursor)
  }

  lemma ScanStep(feed: seq<Row>, i: nat, cursor: int, sofar: int, events: seq<Row>)
    requires i < |feed| && cursor <= sofar
    ensures Tip(feed[i..], sofar) == Tip(feed[i + 1..], if feed[i].rowid > sofar then feed[i].rowid else sofar)
    ensures events + Unseen(feed[i..], cursor)
            == (if feed[i].rowid > cursor && !feed[i].skip then events + [feed[i]] else events) + Unseen(feed[i + 1..], cursor)
  {
    assert feed[i..][0] == feed[i] && feed[i..][1..] == feed[i + 1..];
  }

  method NewMessageEvents(chat: seq<ChatRow>, cursor: int, self: string) returns (newCursor: int, events: seq<Row>)
    ensures newCursor == Tip(ChatFeed(chat, self), cursor)
    ensures events == Unseen(ChatFeed(chat, self), cursor)
    ensures forall row :: row in events <==>
              exists i :: 0 <= i < |chat| && chat[i].rowid > cursor && chat[i].sender != self
                && row == Row(chat[i].rowid, chat[i].receivedAt, false)
  {
    ghost var feed := ChatFeed(chat, self);
    newCursor := cursor;
    events := [];
    assert feed[0..] == feed && [] + Unseen(feed, cursor) == Unseen(feed, cursor);
    for i := 0 to |chat|
      invariant Tip(feed, cursor) == Tip(feed[i..], newCursor) && newCursor >= cursor
      invariant Unseen(feed, cursor) == events + Unseen(feed[i..], cursor)
    {
      ScanStep(feed, i, cursor, newCursor, events);
      var row := chat[i];
      if row.rowid > cursor {
        newCursor := if row.rowid > newCursor then row.rowid else newCursor;
        if row.sender != self {
          events := events + [Row(row.rowid, row.receivedAt, false)];
        }
      }
    }
    assert feed[|chat|..] == [] && events + [] == events;
    forall row
      ensures row in events <==>
              exists i :: 0 <= i < |chat| && chat[i].rowid > cursor && chat[i].sender != self
                && row == Row(chat[i].rowid, chat[i].receivedAt, false)
    {
      MessageIsEvent(chat, self, cursor, row);
    }
  }

  method NewInboxEvents(inbox: seq<InboxRow>, cursor: int) returns (newCursor: int, events: seq<Row>)
    ensures newCursor == Tip(InboxFeed(inbox), cursor)
    ensures events == Unseen(InboxFeed(inbox), cursor)
    ensures forall row :: row in events <==>
              exists i :: 0 <= i < |inbox| && inbox[i].rowid > cursor && inbox[i].decision.None?
                && row == Row(inbox[i].rowid, inbox[i].receivedAt, false)
  {
    ghost var feed := InboxFeed(inbox);
    newCursor := cursor;
    events := [];
    assert feed[0..] == feed && [] + Unseen(feed, cursor) == Unseen(feed, cursor);
    for i := 0 to |inbox|
      invariant Tip(feed, cursor) == Tip(feed[i..], newCursor) && newCursor >= cursor
      invariant Unseen(feed, cursor) == events + Unseen(feed[i..], cursor)
    {
      ScanStep(feed, i, cursor, newCursor, events);
      var row := inbox[i];
      if row.rowid > cursor {
        newCursor := if row.rowid > newCursor then row.rowid else newCursor;
        if row.decision.Some? {
          continue;
        }
        events := events + [Row(row.rowid, row.receivedAt, false)];
      }
    }
    assert feed[|inbox|..] == [] && events + [] == events;
    forall row
      ensures row in events <==>
              exists i :: 0 <= i < |inbox| && inbox[i].rowid > cursor && inbox[i].decision.None?
                && row == Row(inbox[i].rowid, inbox[i].receivedAt, false)
    {
      RequestIsEvent(inbox, cursor, row);
    }
  }

  /** The largest rowid, 0 for an empty table. */
  function MaxRowid(feed: seq<Row>): int {
    if feed == [] then 0 else feed[|feed| - 1].rowid
  }

  /** Scanning passes exactly the rows beyond the cursor and stops at the last row. */
  lemma {:induction false} TipIsLast(feed: seq<Row>, cursor: int)
    requires Ordered(feed) && cursor >= 0
    ensures Tip(feed, cursor) == if MaxRowid(feed) > cursor then MaxRowid(feed) else cursor
  {
    if feed != [] {
      TipIsLast(feed[1..], if feed[0].rowid > cursor then feed[0].rowid else cursor);
    }
  }

  /** The first unseen row: everything between it and the cursor is skipped. */
  lemma {:induction false} FirstUnseen(feed: seq<Row>, cursor: int)
    requires Ordered(feed)
    ensures var unseen := Unseen(feed, cursor);
            && (unseen == [] ==> forall row :: row in feed && row.rowid > cursor ==> row.skip)
            && (unseen != [] ==>
                  && unseen[0] in feed && unseen[0].rowid > cursor && !unseen[0].skip
                  && forall row :: row in feed && cursor < row.rowid < unseen[0].rowid ==> row.skip)
  {
    if feed != [] {
      FirstUnseen(feed[1..], cursor);
      assert forall row :: row in feed[1..] ==> row in feed && row.rowid > feed[0].rowid;
    }
  }

  /** Moving the cursor onto the first unseen row leaves the others. */
  lemma {:induction false} UnseenTail(feed: seq<Row>, cursor: int)
    requires Ordered(feed) && Unseen(feed, cursor) != []
    ensures Unseen(feed, Unseen(feed, cursor)[0].rowid) == Unseen(feed, cursor)[1..]
  {
    var rest := feed[1..];
    if feed[0].rowid > cursor && !feed[0].skip {
      AllUnseen(rest, cursor, feed[0].rowid);
      assert Unseen(feed, cursor)[1..] == Unseen(rest, cursor);
    } else {
      UnseenTail(rest, cursor);
      FirstUnseen(rest, cursor);
      assert Unseen(feed, cursor) == Unseen(rest, cursor);
      assert Unseen(rest, cursor)[0] in rest;
    }
  }

  /** A cursor below every row sees them all, wherever it stands. */
  lemma {:induction false} AllUnseen(feed: seq<Row>, a: int, b: int)
    requires forall i :: 0 <= i < |feed| ==> feed[i].rowid > a && feed[i].rowid > b
    ensures Unseen(feed, a) == Unseen(feed, b)
  {
    if feed != [] {
      AllUnseen(feed[1..], a, b);
    }
  }

  /** A stretch of skipped rows is invisible: both ends see the same events. */
  lemma {:induction false} SkippedStretch(feed: seq<Row>, low: int, high: int)
    requires low <= high && forall row :: row in feed && low < row.rowid <= high ==> row.skip
    ensures Unseen(feed, low) == Unseen(feed, high)
  {
    if feed != [] {
      SkippedStretch(feed[1..], low, high);
    }
  }

  // ----- catch_up -----

  datatype Caught = Nothing | Caught(event: Event)

  /** Oldest first across the streams; the inbox goes first on a tie. */
  predicate InboxFirst(msgs: seq<Row>, requests: seq<Row>)
    requires msgs != [] || requests != []
  {
    msgs == [] || (requests != [] && requests[0].at <= msgs[0].at)
  }

  /** The choice `catch_up` makes from the two scans, and the cursor it returns. */
  function Choose(cursor: Cursor, chatTip: int, msgs: seq<Row>, inboxTip: int, requests: seq<Row>): (Caught, Cursor) {
    if msgs == [] && requests == [] then (Nothing, Cursor(chatTip, inboxTip))
    else if InboxFirst(msgs, requests) then
      (Caught(Event(Inbox, requests[0].rowid)),
       Cursor(if msgs == [] then chatTip else cursor.chat, requests[0].rowid))
    else
      (Caught(Event(Chat, msgs[0].rowid)),
       Cursor(msgs[0].rowid, if requests == [] then inboxTip else cursor.inbox))
  }

  function CatchUp(chat: seq<Row>, inbox: seq<Row>, cursor: Cursor): (Caught, Cursor) {
    Choose(cursor, Tip(chat, cursor.chat), Unseen(chat, cursor.chat), Tip(inbox, cursor.inbox), Unseen(inbox, cursor.inbox))
  }

  method CatchUpTables(chat: seq<ChatRow>, inbox: seq<InboxRow>, self: string, cursor: Cursor)
      returns (caught: Caught, next: Cursor)
    ensures (caught, next) == CatchUp(ChatFeed(chat, self), InboxFeed(inbox), cursor)
  {
    var mc, msgs := NewMessageEvents(chat, cursor.chat, self);
    var ic, requests := NewInboxEvents(inbox, cursor.inbox);
    var pickInbox;
    if msgs == [] && requests == [] {
      return Nothing, Cursor(mc, ic);
    } else if requests == [] {
      pickInbox := false;
    } else if msgs == [] {
      pickInbox := true;
    } else {
      pickInbox := requests[0].at <= msgs[0].at;
    }
    if pickInbox {
      return Caught(Event(Inbox, requests[0].rowid)), Cursor(if msgs == [] then mc else cursor.chat, requests[0].rowid);
    } else {
      return Caught(Event(Chat, msgs[0].rowid)), Cursor(msgs[0].rowid, if requests == [] then ic else cursor.inbox);
    }
  }

  // ----- draining a database nobody writes -----

  function Events(stream: Stream, rows: seq<Row>): (events: seq<Event>)
    ensures |events| == |rows|
  {
    seq(|rows|, i requires 0 <= i < |rows| => Event(stream, rows[i].rowid))
  }

  /** The two streams merged by receipt, a tie going to the inbox. */
  function Merge(msgs: seq<Row>, requests: seq<Row>): seq<Event>
    decreases |msgs| + |requests|
  {
    if msgs == [] && requests == [] then []
    else if InboxFirst(msgs, requests) then [Event(Inbox, requests[0].rowid)] + Merge(msgs, requests[1..])
    else [Event(Chat, msgs[0].rowid)] + Merge(msgs[1..], requests)
  }

  function PendingCount(chat: seq<Row>, inbox: seq<Row>, cursor: Cursor): nat {
    |Unseen(chat, cursor.chat)| + |Unseen(inbox, cursor.inbox)|
  }

  /** Every run that finds an event takes exactly one off the pending ones. */
  lemma CatchUpTakesOne(chat: seq<Row>, inbox: seq<Row>, cursor: Cursor)
    requires Ordered(chat) && Ordered(inbox)
    ensures var (caught, next) := CatchUp(chat, inbox, cursor);
            var msgs, requests := Unseen(chat, cursor.chat), Unseen(inbox, cursor.inbox);
            && (caught.Nothing? <==> PendingCount(chat, inbox, cursor) == 0)
            && (caught.Caught? ==>
                  && PendingCount(chat, inbox, next) == PendingCount(chat, inbox, cursor) - 1
                  && Unseen(chat, next.chat) == (if caught.event.stream == Chat then msgs[1..] else msgs)
                  && Unseen(inbox, next.inbox) == (if caught.event.stream == Inbox then requests[1..] else requests))
  {
    FirstUnseen(chat, cursor.chat);
    FirstUnseen(inbox, cursor.inbox);
    if Unseen(chat, cursor.chat) != [] {
      UnseenTail(chat, cursor.chat);
    } else {
      TipGrows(chat, cursor.chat);
      SkippedStretch(chat, cursor.chat, Tip(chat, cursor.chat));
    }
    if Unseen(inbox, cursor.inbox) != [] {
      UnseenTail(inbox, cursor.inbox);
    } else {
      TipGrows(inbox, cursor.inbox);
      SkippedStretch(inbox, cursor.inbox, Tip(inbox, cursor.inbox));
    }
  }

  lemma {:induction false} TipGrows(feed: seq<Row>, cursor: int)
    ensures Tip(feed, cursor) >= cursor
    ensures forall row :: row in feed ==> row.rowid <= Tip(feed, cursor)
  {
    if feed != [] {
      TipGrows(feed[1..], if feed[0].rowid > cursor then feed[0].rowid else cursor);
      assert forall row :: row in feed <==> row == feed[0] || row in feed[1..];
    }
  }

  /** What one run after another emits until there is nothing left. */
  function Drain(chat: seq<Row>, inbox: seq<Row>, cursor: Cursor): seq<Event>
    requires Ordered(chat) && Ordered(inbox)
    decreases PendingCount(chat, inbox, cursor)
  {
    var (caught, next) := CatchUp(chat, inbox, cursor);
    CatchUpTakesOne(chat, inbox, cursor);
    if caught.Nothing? then [] else [caught.event] + Drain(chat, inbox, next)
  }

  lemma {:induction false} DrainIsMerge(chat: seq<Row>, inbox: seq<Row>, cursor: Cursor)
    requires Ordered(chat) && Ordered(inbox)
    ensures Drain(chat, inbox, cursor) == Merge(Unseen(chat, cursor.chat), Unseen(inbox, cursor.inbox))
    decreases PendingCount(chat, inbox, cursor)
  {
    var (caught, next) := CatchUp(chat, inbox, cursor);
    CatchUpTakesOne(chat, inbox, cursor);
    if caught.Caught? {
      DrainIsMerge(chat, inbox, next);
    }
  }

  lemma EventsHead(stream: Stream, rows: seq<Row>, rest: seq<Event>)
    requires rows != []
    ensures multiset(Events(stream, rows)) == multiset{Event(stream, rows[0].rowid)} + multiset(Events(stream, rows[1..]))
    ensures multiset([Event(stream, rows[0].rowid)] + rest) == multiset{Event(stream, rows[0].rowid)} + multiset(rest)
  {
    assert Events(stream, rows) == [Event(stream, rows[0].rowid)] + Events(stream, rows[1..]);
  }

  /** Nothing is lost and nothing emitted twice. */
  lemma {:induction false} MergeIsPermutation(msgs: seq<Row>, requests: seq<Row>)
    ensures multiset(Merge(msgs, requests)) == multiset(Events(Chat, msgs)) + multiset(Events(Inbox, requests))
    decreases |msgs| + |requests|
  {
    if msgs == [] && requests == [] {
    } else if InboxFirst(msgs, requests) {
      MergeIsPermutation(msgs, requests[1..]);
      EventsHead(Inbox, requests, Merge(msgs, requests[1..]));
    } else {
      MergeIsPermutation(msgs[1..], requests);
      EventsHead(Chat, msgs, Merge(msgs[1..], requests));
    }
  }

  lemma DrainIsPermutation(chat: seq<Row>, inbox: seq<Row>, cursor: Cursor)
    requires Ordered(chat) && Ordered(inbox)
    ensures multiset(Drain(chat, inbox, cursor))
            == multiset(Events(Chat, Unseen(chat, cursor.chat))) + multiset(Events(Inbox, Unseen(inbox, cursor.inbox)))
  {
    DrainIsMerge(chat, inbox, cursor);
    MergeIsPermutation(Unseen(chat, cursor.chat), Unseen(inbox, cursor.inbox));
  }

  // ----- order of receipt -----

  predicate SortedByReceipt(rows: seq<Row>) {
    forall i, j :: 0 <= i < j < |rows| ==> rows[i].at <= rows[j].at
  }

  /** When each emitted event was received. */
  function MergeTimes(msgs: seq<Row>, requests: seq<Row>): seq<(int, Event)>
    decreases |msgs| + |requests|
  {
    if msgs == [] && requests == [] then []
    else if InboxFirst(msgs, requests) then
      [(requests[0].at, Event(Inbox, requests[0].rowid))] + MergeTimes(msgs, requests[1..])
    else [(msgs[0].at, Event(Chat, msgs[0].rowid))] + MergeTimes(msgs[1..], requests)
  }

  predicate InOrder(times: seq<(int, Event)>) {
    forall i, j :: 0 <= i < j < |times| ==>
      times[i].0 < times[j].0 || (times[i].0 == times[j].0 && (times[j].1.stream == Inbox ==> times[i].1.stream == Inbox))
  }

  lemma {:induction false} MergeTimesAreMerge(msgs: seq<Row>, requests: seq<Row>)
    ensures |MergeTimes(msgs, requests)| == |Merge(msgs, requests)|
    ensures forall i :: 0 <= i < |Merge(msgs, requests)| ==> MergeTimes(msgs, requests)[i].1 == Merge(msgs, requests)[i]
    ensures forall t :: t in MergeTimes(msgs, requests) ==>
              (exists row :: row in msgs && t == (row.at, Event(Chat, row.rowid)))
              || (exists row :: row in requests && t == (row.at, Event(Inbox, row.rowid)))
    decreases |msgs| + |requests|
  {
    if msgs == [] && requests == [] {
    } else if InboxFirst(msgs, requests) {
      MergeTimesAreMerge(msgs, requests[1..]);
    } else {
      MergeTimesAreMerge(msgs[1..], requests);
    }
  }

  /** When each stream is in order of receipt, so is the drain, ties going to the inbox. */
  lemma {:induction false} MergeIsInOrder(msgs: seq<Row>, requests: seq<Row>)
    requires SortedByReceipt(msgs) && SortedByReceipt(requests)
    ensures InOrder(MergeTimes(msgs, requests))
    decreases |msgs| + |requests|
  {
    if msgs == [] && requests == [] {
    } else if InboxFirst(msgs, requests) {
      MergeIsInOrder(msgs, requests[1..]);
      MergeTimesAreMerge(msgs, requests[1..]);
      HeadFirst((requests[0].at, Event(Inbox, requests[0].rowid)), MergeTimes(msgs, requests[1..]), msgs, requests[1..]);
    } else {
      MergeIsInOrder(msgs[1..], requests);
      MergeTimesAreMerge(msgs[1..], requests);
      HeadFirst((msgs[0].at, Event(Chat, msgs[0].rowid)), MergeTimes(msgs[1..], requests), msgs[1..], requests);
    }
  }

  lemma HeadFirst(head: (int, Event), rest: seq<(int, Event)>, msgs: seq<Row>, requests: seq<Row>)
    requires InOrder(rest)
    requires forall t :: t in rest ==>
               (exists row :: row in msgs && t == (row.at, Event(Chat, row.rowid)))
               || (exists row :: row in requests && t == (row.at, Event(Inbox, row.rowid)))
    requires forall row :: row in msgs ==> head.0 <= row.at
    requires forall row :: row in requests ==> head.0 < row.at || (head.0 == row.at && head.1.stream == Inbox)
    ensures InOrder([head] + rest)
  {
    var all := [head] + rest;
    forall i, j | 0 <= i < j < |all|
      ensures all[i].0 < all[j].0 || (all[i].0 == all[j].0 && (all[j].1.stream == Inbox ==> all[i].1.stream == Inbox))
    {
      assert all[j] == rest[j - 1];
      if i == 0 {
        assert rest[j - 1] in rest;
      } else {
        assert all[i] == rest[i - 1];
      }
    }
  }

  /** The row of an event emitted from these feeds. */
  ghost predicate RowOf(row: Row, event: Event, chat: seq<Row>, inbox: seq<Row>) {
    row.rowid == event.rowid && row in (if event.stream == Chat then chat else inbox)
  }

  lemma {:induction false} SomeUnseen(feed: seq<Row>, cursor: int)
    ensures forall row :: row in Unseen(feed, cursor) ==> row in feed
    ensures SortedByReceipt(feed) ==> SortedByReceipt(Unseen(feed, cursor))
  {
    if feed != [] {
      SomeUnseen(feed[1..], cursor);
      if SortedByReceipt(feed) {
        assert SortedByReceipt(feed[1..]);
        forall row | row in Unseen(feed[1..], cursor) ensures feed[0].at <= row.at {
          var i :| 0 <= i < |feed[1..]| && feed[1..][i] == row;
        }
      }
    }
  }

  /** An emitted event and when its row was received. */
  lemma TimeInDrain(chat: seq<Row>, inbox: seq<Row>, cursor: Cursor, i: nat, row: Row)
    requires Ordered(chat) && Ordered(inbox)
    requires i < |Drain(chat, inbox, cursor)| && RowOf(row, Drain(chat, inbox, cursor)[i], chat, inbox)
    ensures var times := MergeTimes(Unseen(chat, cursor.chat), Unseen(inbox, cursor.inbox));
            i < |times| && times[i] == (row.at, Drain(chat, inbox, cursor)[i])
  {
    var msgs, requests := Unseen(chat, cursor.chat), Unseen(inbox, cursor.inbox);
    SomeUnseen(chat, cursor.chat);
    SomeUnseen(inbox, cursor.inbox);
    DrainIsMerge(chat, inbox, cursor);
    MergeTimesAreMerge(msgs, requests);
    var time := MergeTimes(msgs, requests)[i];
    assert time in MergeTimes(msgs, requests) && time.1 == Drain(chat, inbox, cursor)[i];
    TimeOfEvent(chat, inbox, time, row, msgs, requests);
  }

  /** When each table is in order of receipt, the drain emits its events in order of receipt, a request before
      a message received at the same time. */
  lemma DrainIsInOrder(chat: seq<Row>, inbox: seq<Row>, cursor: Cursor, i: nat, j: nat, a: Row, b: Row)
    requires Ordered(chat) && Ordered(inbox) && SortedByReceipt(chat) && SortedByReceipt(inbox)
    requires i < j < |Drain(chat, inbox, cursor)|
    requires RowOf(a, Drain(chat, inbox, cursor)[i], chat, inbox) && RowOf(b, Drain(chat, inbox, cursor)[j], chat, inbox)
    ensures var drain := Drain(chat, inbox, cursor);
            a.at < b.at || (a.at == b.at && (drain[j].stream == Inbox ==> drain[i].stream == Inbox))
  {
    TimeInDrain(chat, inbox, cursor, i, a);
    TimeInDrain(chat, inbox, cursor, j, b);
    SomeUnseen(chat, cursor.chat);
    SomeUnseen(inbox, cursor.inbox);
    MergeIsInOrder(Unseen(chat, cursor.chat), Unseen(inbox, cursor.inbox));
  }

  lemma TimeOfEvent(chat: seq<Row>, inbox: seq<Row>, time: (int, Event), row: Row, msgs: seq<Row>, requests: seq<Row>)
    requires Ordered(chat) && Ordered(inbox) && RowOf(row, time.1, chat, inbox)
    requires (forall r :: r in msgs ==> r in chat) && (forall r :: r in requests ==> r in inbox)
    requires || (exists r :: r in msgs && time == (r.at, Event(Chat, r.rowid)))
             || (exists r :: r in requests && time == (r.at, Event(Inbox, r.rowid)))
    ensures time.0 == row.at
  {
    if r :| r in msgs && time == (r.at, Event(Chat, r.rowid)) {
      SameRowid(chat, r, row);
    } else {
      var r :| r in requests && time == (r.at, Event(Inbox, r.rowid));
      SameRowid(inbox, r, row);
    }
  }

  lemma SameRowid(feed: seq<Row>, a: Row, b: Row)
    requires Ordered(feed) && a in feed && b in feed && a.rowid == b.rowid
    ensures a == b
  {
  }

  // ----- the first cursor -----

  /** `initial_cursor` from the tables as its three reads see them. */
  function InitialCursor(fromStart: bool, inboxFirst: seq<Row>, inboxThen: seq<Row>, chat: seq<Row>): Cursor {
    if fromStart then Cursor(0, 0)
    else
      var waiting := Unseen(inboxFirst, 0);
      Cursor(MaxRowid(chat), if waiting != [] then waiting[0].rowid - 1 else MaxRowid(inboxThen))
  }

  /** `later` is `feed` some time on: rows appended, rows decided, none removed. */
  predicate Grown(feed: seq<Row>, later: seq<Row>) {
    && |feed| <= |later|
    && forall i :: 0 <= i < |feed| ==> later[i] == feed[i] || later[i] == feed[i].(skip := true)
  }

  predicate Covers(cursor: int, feed: seq<Row>) {
    forall row :: row in feed && !row.skip ==> row.rowid > cursor
  }

  /** The first cursor lies before every waiting request, unless the first one arrived between its reads. */
  lemma InitialCursorCovers(inboxFirst: seq<Row>, inboxThen: seq<Row>, chat: seq<Row>)
    requires Ordered(inboxFirst) && Ordered(inboxThen) && Grown(inboxFirst, inboxThen)
    ensures Covers(InitialCursor(false, inboxFirst, inboxThen, chat).inbox, inboxThen)
            <==> Unseen(inboxFirst, 0) != [] || Unseen(inboxThen, 0) == []
    ensures Covers(InitialCursor(true, inboxFirst, inboxThen, chat).inbox, inboxThen)
  {
    FirstUnseen(inboxThen, 0);
    if Unseen(inboxFirst, 0) != [] {
      forall row | row in inboxThen && !row.skip
        ensures row.rowid >= Unseen(inboxFirst, 0)[0].rowid
      {
        WaitingRowsAreLater(inboxFirst, inboxThen, row);
      }
    } else if Unseen(inboxThen, 0) != [] {
      var row := Unseen(inboxThen, 0)[0];
      var i :| 0 <= i < |inboxThen| && inboxThen[i] == row;
      assert row.rowid <= MaxRowid(inboxThen);
    }
  }

  /** A row that waits later is no older than the first one waiting now. */
  lemma WaitingRowsAreLater(feed: seq<Row>, later: seq<Row>, row: Row)
    requires Ordered(feed) && Ordered(later) && Grown(feed, later) && Unseen(feed, 0) != []
    requires row in later && !row.skip
    ensures row.rowid >= Unseen(feed, 0)[0].rowid
  {
    FirstUnseen(feed, 0);
    var first := Unseen(feed, 0)[0];
    var i :| 0 <= i < |later| && later[i] == row;
    var j :| 0 <= j < |feed| && feed[j] == first;
    forall k | 0 <= k < j
      ensures later[k].skip
    {
      assert feed[k] in feed && feed[k].rowid < first.rowid;
    }
    assert j <= i;
    assert later[j].rowid == first.rowid;
  }

  /** Started from it on a database nobody writes, the drain covers every waiting request. */
  lemma FirstDrainCoversRequests(chat: seq<Row>, inbox: seq<Row>, row: Row)
    requires Ordered(chat) && Ordered(inbox) && row in inbox && !row.skip
    ensures Event(Inbox, row.rowid) in Drain(chat, inbox, InitialCursor(false, inbox, inbox, chat))
  {
    var cursor := InitialCursor(false, inbox, inbox, chat);
    InitialCursorCovers(inbox, inbox, chat);
    FirstUnseen(inbox, 0);
    UnseenHas(inbox, cursor.inbox, row);
    DrainIsPermutation(chat, inbox, cursor);
    var i :| 0 <= i < |Unseen(inbox, cursor.inbox)| && Unseen(inbox, cursor.inbox)[i] == row;
    assert Events(Inbox, Unseen(inbox, cursor.inbox))[i] == Event(Inbox, row.rowid);
    assert Event(Inbox, row.rowid) in multiset(Drain(chat, inbox, cursor));
  }

  /** What a scan emits: the rows past the cursor that are not skipped. */
  lemma {:induction false} UnseenHas(feed: seq<Row>, cursor: int, row: Row)
    ensures row in Unseen(feed, cursor) <==> row in feed && row.rowid > cursor && !row.skip
  {
    if feed != [] {
      UnseenHas(feed[1..], cursor, row);
      assert row in feed <==> row == feed[0] || row in feed[1..];
    }
  }

  // ----- the scans on the tables themselves -----

  /** A request wakes exactly when it lies past the cursor and waits for a decision. */
  lemma RequestIsEvent(inbox: seq<InboxRow>, cursor: int, row: Row)
    ensures row in Unseen(InboxFeed(inbox), cursor) <==>
            exists i :: 0 <= i < |inbox| && inbox[i].rowid > cursor && inbox[i].decision.None?
              && row == Row(inbox[i].rowid, inbox[i].receivedAt, false)
  {
    UnseenHas(InboxFeed(inbox), cursor, row);
    if row in InboxFeed(inbox) {
      var i :| 0 <= i < |inbox| && InboxFeed(inbox)[i] == row;
    }
    forall i | 0 <= i < |inbox| && inbox[i].decision.None? ensures Row(inbox[i].rowid, inbox[i].receivedAt, false) in InboxFeed(inbox) {
      assert InboxFeed(inbox)[i] == Row(inbox[i].rowid, inbox[i].receivedAt, false);
    }
  }

  /** A message wakes exactly when it lies past the cursor and somebody else sent it. */
  lemma MessageIsEvent(chat: seq<ChatRow>, self: string, cursor: int, row: Row)
    ensures row in Unseen(ChatFeed(chat, self), cursor) <==>
            exists i :: 0 <= i < |chat| && chat[i].rowid > cursor && chat[i].sender != self
              && row == Row(chat[i].rowid, chat[i].receivedAt, false)
  {
    UnseenHas(ChatFeed(chat, self), cursor, row);
    if row in ChatFeed(chat, self) {
      var i :| 0 <= i < |chat| && ChatFeed(chat, self)[i] == row;
    }
    forall i | 0 <= i < |chat| && chat[i].sender != self
      ensures Row(chat[i].rowid, chat[i].receivedAt, false) in ChatFeed(chat, self)
    {
      assert ChatFeed(chat, self)[i] == Row(chat[i].rowid, chat[i].receivedAt, false);
    }
  }

  /** One run wakes for a waiting request or somebody else's message past the cursor, and for nothing else; it
      finds none only when there is none. */
  lemma CaughtFromTables(chat: seq<ChatRow>, inbox: seq<InboxRow>, self: string, cursor: Cursor)
    ensures var caught := CatchUp(ChatFeed(chat, self), InboxFeed(inbox), cursor).0;
            && (caught.Caught? && caught.event.stream == Inbox ==>
                  exists i :: 0 <= i < |inbox| && inbox[i].rowid == caught.event.rowid
                    && inbox[i].rowid > cursor.inbox && inbox[i].decision.None?)
            && (caught.Caught? && caught.event.stream == Chat ==>
                  exists i :: 0 <= i < |chat| && chat[i].rowid == caught.event.rowid
                    && chat[i].rowid > cursor.chat && chat[i].sender != self)
            && (caught.Nothing? <==>
                  && (forall i :: 0 <= i < |inbox| && inbox[i].rowid > cursor.inbox ==> inbox[i].decision.Some?)
                  && (forall i :: 0 <= i < |chat| && chat[i].rowid > cursor.chat ==> chat[i].sender == self))
  {
    var msgs, requests := Unseen(ChatFeed(chat, self), cursor.chat), Unseen(InboxFeed(inbox), cursor.inbox);
    if msgs != [] {
      MessageIsEvent(chat, self, cursor.chat, msgs[0]);
      assert msgs[0] in msgs;
    }
    if requests != [] {
      RequestIsEvent(inbox, cursor.inbox, requests[0]);
      assert requests[0] in requests;
    }
    forall i | 0 <= i < |inbox| && inbox[i].rowid > cursor.inbox && inbox[i].decision.None? ensures requests != [] {
      RequestIsEvent(inbox, cursor.inbox, Row(inbox[i].rowid, inbox[i].receivedAt, false));
    }
    forall i | 0 <= i < |chat| && chat[i].rowid > cursor.chat && chat[i].sender != self ensures msgs != [] {
      MessageIsEvent(chat, self, cursor.chat, Row(chat[i].rowid, chat[i].receivedAt, false));
    }
  }

  /** Of a waiting request and a message that could both go next, the one received first does, the request on a tie. */
  lemma OldestFirst(chat: seq<Row>, inbox: seq<Row>, cursor: Cursor, message: Row, request: Row)
    requires Ordered(chat) && Ordered(inbox)
    requires Unseen(chat, cursor.chat) != [] && Unseen(chat, cursor.chat)[0] == message
    requires Unseen(inbox, cursor.inbox) != [] && Unseen(inbox, cursor.inbox)[0] == request
    ensures var (caught, next) := CatchUp(chat, inbox, cursor);
            && (request.at <= message.at ==> caught == Caught(Event(Inbox, request.rowid))
                                             && next == Cursor(cursor.chat, request.rowid))
            && (request.at > message.at ==> caught == Caught(Event(Chat, message.rowid))
                                            && next == Cursor(message.rowid, cursor.inbox))
  {
  }

  /** A first run starts chat at its last message and the inbox just before its first waiting request, or at its
      last row when none waits; from the start, it starts at nothing. */
  lemma FirstRunStarts(chat: seq<Row>, inbox: seq<Row>, k: nat)
    requires Ordered(chat) && Ordered(inbox) && k <= |inbox|
    requires (forall i :: 0 <= i < k ==> inbox[i].skip) && (k < |inbox| ==> !inbox[k].skip)
    ensures InitialCursor(true, inbox, inbox, chat) == Cursor(0, 0)
    ensures InitialCursor(false, inbox, inbox, chat) ==
            Cursor(if chat == [] then 0 else chat[|chat| - 1].rowid,
                   if k < |inbox| then inbox[k].rowid - 1 else if inbox == [] then 0 else inbox[|inbox| - 1].rowid)
  {
    FirstUnseen(inbox, 0);
    if k < |inbox| {
      UnseenHas(inbox, 0, inbox[k]);
      var first := Unseen(inbox, 0)[0];
      var i :| 0 <= i < |inbox| && inbox[i] == first;
      assert i >= k;
    } else {
      assert forall row :: row in inbox ==> row.skip;
    }
  }
}
