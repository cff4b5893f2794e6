/** What a crash between printing and saving costs: the promise of `rsntr await` that the next run emits the
    same event again, over everything other processes write in between. */
module Replay {
  import opened AuthTypes
  import opened Feeds
  import opened Await

  // ----- until a cursor is saved -----

  predicate SavesNothing(steps: seq<Step>) {
    forall i :: 0 <= i < |steps| ==> steps[i] != Save
  }

  /** `later` is `s` some time on, no cursor saved since: rows appended, requests decided. */
  ghost predicate Since(s: State, later: State) {
    && later.file == s.file && later.fromStart == s.fromStart
    && Grown(s.chat, later.chat) && Grown(s.inbox, later.inbox)
    && (forall i :: 0 <= i < |s.chat| ==> later.chat[i] == s.chat[i])
  }

  lemma StepSince(s: State, step: Step)
    requires step != Save
    ensures Since(s, Next(s, step))
  {
  }

  lemma SinceTransitive(a: State, b: State, c: State)
    requires Since(a, b) && Since(b, c)
    ensures Since(a, c)
  {
    GrownTransitive(a.inbox, b.inbox, c.inbox);
    GrownTransitive(a.chat, b.chat, c.chat);
  }

  lemma GrownTransitive(a: seq<Row>, b: seq<Row>, c: seq<Row>)
    requires Grown(a, b) && Grown(b, c)
    ensures Grown(a, c)
  {
    forall i | 0 <= i < |a| ensures c[i] == a[i] || c[i] == a[i].(skip := true) {
      assert b[i] == a[i] || b[i] == a[i].(skip := true);
    }
  }

  lemma {:induction false} RunSince(s: State, steps: seq<Step>)
    requires Ok(s) && SavesNothing(steps)
    ensures Ok(Run(s, steps)) && Since(s, Run(s, steps))
    decreases |steps|
  {
    if steps != [] {
      assert steps[0] != Save;
      StepKeeps(s, steps[0]);
      StepSince(s, steps[0]);
      RunSince(Next(s, steps[0]), steps[1..]);
      SinceTransitive(s, Next(s, steps[0]), Run(s, steps));
    }
  }

  // ----- the event found -----

  function FoundBy(s: State): Caught
    requires s.phase.HalfScanned?
  {
    CatchUp(s.phase.seen, s.inbox, s.phase.cursor).0
  }

  /** The row of an event found is past the saved cursor, and everything from the next start up to it is skipped. */
  ghost predicate FoundRow(s: State, event: Event, first: Row) {
    && first in s.Feed(event.stream) && first.rowid == event.rowid && !first.skip && first.rowid > 0
    && (s.file.Some? ==> s.file.value.At(event.stream) < event.rowid)
    && OnlySkipped(s.Feed(event.stream), NextStart(s).At(event.stream), event.rowid)
  }

  lemma EventHasRow(s: State, event: Event) returns (first: Row)
    requires Ok(s) && s.phase.HalfScanned? && FoundBy(s) == Caught(event)
    ensures FoundRow(s, event, first)
  {
    var stream := event.stream;
    assert RestOk(s, stream) && PhaseOk(s, stream);
    first := Unseen(SeenFeed(s, stream), s.phase.cursor.At(stream))[0];
    HeldStretch(s, stream, s.phase.cursor.At(stream), SeenFeed(s, stream));
  }

  lemma HeldStretch(s: State, stream: Stream, cursor: int, seen: seq<Row>)
    requires Holds(s, stream, cursor) && Ordered(s.Feed(stream)) && seen <= s.Feed(stream) && Unseen(seen, cursor) != []
    ensures FoundRow(s, Event(stream, Unseen(seen, cursor)[0].rowid), Unseen(seen, cursor)[0])
  {
    EventStretch(s.Feed(stream), seen, cursor);
  }

  // ----- where the next run starts -----

  /** A first run starts chat at now. */
  predicate ChatFromNow(s: State, stream: Stream) {
    s.file.None? && !s.fromStart && stream == Chat
  }

  /** The next start lies before a waiting row, unless it starts chat at now; then before none. */
  lemma StartBeforeRow(s: State, later: State, event: Event, row: Row)
    requires Since(s, later) && Ordered(later.chat) && Ordered(later.inbox)
    requires s.file.Some? ==> s.file.value.At(event.stream) < event.rowid
    requires row in later.Feed(event.stream) && row.rowid == event.rowid && !row.skip
    ensures NextStart(later).At(event.stream) < event.rowid <==> !ChatFromNow(s, event.stream)
  {
    RowsUpToMax(later.Feed(event.stream));
    if event.stream == Inbox && later.file.None? && !later.fromStart {
      UnseenHas(later.inbox, 0, row);
      FirstUnseen(later.inbox, 0);
    }
  }

  /** A row waiting later between the next start and the event was waiting there when the event was found. */
  lemma NothingWaitsBefore(s: State, later: State, event: Event, first: Row, row: Row)
    requires FoundRow(s, event, first) && Since(s, later) && !ChatFromNow(s, event.stream)
    requires Ordered(s.chat) && Ordered(s.inbox) && Ordered(later.chat) && Ordered(later.inbox)
    requires row in later.Feed(event.stream) && NextStart(later).At(event.stream) < row.rowid < event.rowid
    ensures row.skip
  {
    var feed, feed' := s.Feed(event.stream), later.Feed(event.stream);
    var i :| 0 <= i < |feed'| && feed'[i] == row;
    var k :| 0 <= k < |feed| && feed[k] == first;
    assert feed'[k].rowid == first.rowid;
    assert i < k;
    assert feed[i].rowid == row.rowid && (feed[i].skip ==> row.skip) && feed[i] in feed;
    if !row.skip {
      StartedBefore(s, later, event, first, row);
    }
  }

  lemma StartedBefore(s: State, later: State, event: Event, first: Row, row: Row)
    requires FoundRow(s, event, first) && Since(s, later) && !ChatFromNow(s, event.stream)
    requires Ordered(s.chat) && Ordered(s.inbox) && Ordered(later.chat) && Ordered(later.inbox)
    requires row in later.Feed(event.stream) && !row.skip && NextStart(later).At(event.stream) < row.rowid
    ensures NextStart(s).At(event.stream) < row.rowid
  {
    if event.stream == Inbox && s.file.None? && !s.fromStart {
      UnseenHas(s.inbox, 0, first);
      WaitingRowsAreLater(s.inbox, later.inbox, row);
    }
  }

  // ----- main results -----

  /** Whether the event found by a scan still waits for the next run: exactly unless its request was decided
      meanwhile, or no cursor was ever saved and it is a chat message. If it waits, nothing of its stream
      comes before it. */
  lemma FoundStillWaits(s: State, steps: seq<Step>, event: Event, row: Row)
    requires Ok(s) && s.phase.HalfScanned? && FoundBy(s) == Caught(event) && SavesNothing(steps)
    requires row in Run(s, steps).Feed(event.stream) && row.rowid == event.rowid
    ensures var later := Run(s, steps);
            var waiting := Unseen(later.Feed(event.stream), NextStart(later).At(event.stream));
            && (row in waiting <==> !row.skip && !ChatFromNow(s, event.stream))
            && (row in waiting ==> waiting[0] == row)
  {
    var later := Run(s, steps);
    var feed, start := later.Feed(event.stream), NextStart(later).At(event.stream);
    RunSince(s, steps);
    assert StreamOk(later, Chat) && StreamOk(later, Inbox) && StreamOk(s, Chat) && StreamOk(s, Inbox);
    var first := EventHasRow(s, event);
    UnseenHas(feed, start, row);
    if !row.skip {
      StartBeforeRow(s, later, event, row);
    }
    if row in Unseen(feed, start) {
      FirstUnseen(feed, start);
      var head := Unseen(feed, start)[0];
      if head.rowid < event.rowid {
        NothingWaitsBefore(s, later, event, first, head);
      }
      SameRowid(feed, head, row);
    }
  }

  /** The row is there: rows are not deleted. */
  lemma FoundRowRemains(s: State, steps: seq<Step>, event: Event) returns (row: Row)
    requires Ok(s) && s.phase.HalfScanned? && FoundBy(s) == Caught(event) && SavesNothing(steps)
    ensures row in Run(s, steps).Feed(event.stream) && row.rowid == event.rowid
    ensures event.stream == Chat ==> !row.skip
  {
    RunSince(s, steps);
    var first := EventHasRow(s, event);
    var k :| 0 <= k < |s.Feed(event.stream)| && s.Feed(event.stream)[k] == first;
    row := Run(s, steps).Feed(event.stream)[k];
  }

  /** The waiting row of the other stream that goes first: a request not received after the message, or a
      message received before the request. */
  predicate Overtaken(later: State, event: Event, row: Row) {
    if event.stream == Chat then
      var requests := Unseen(later.inbox, NextStart(later).inbox);
      requests != [] && requests[0].at <= row.at
    else
      var msgs := Unseen(later.chat, NextStart(later).chat);
      msgs != [] && msgs[0].at < row.at
  }

  /** The promise, exactly. An event was found by a scan; then, until the next run scans, other processes write
      and this one prints, crashes and restarts in any order, but saves no cursor. That next run emits the same
      event if and only if it still waits and no row of the other stream goes first. */
  lemma NextRunReplaysExactly(s: State, steps: seq<Step>, event: Event, row: Row)
    requires Ok(s) && s.phase.HalfScanned? && FoundBy(s) == Caught(event) && SavesNothing(steps)
    requires row in Run(s, steps).Feed(event.stream) && row.rowid == event.rowid
    ensures var later := Run(s, steps);
            CatchUp(later.chat, later.inbox, NextStart(later)).0 == Caught(event)
            <==> !row.skip && !ChatFromNow(s, event.stream) && !Overtaken(later, event, row)
  {
    var later := Run(s, steps);
    FoundStillWaits(s, steps, event, row);
    FirstIsRow(s, steps, event, row);
    var next := NextStart(later);
    ChosenIff(next, Tip(later.chat, next.chat), Unseen(later.chat, next.chat),
              Tip(later.inbox, next.inbox), Unseen(later.inbox, next.inbox), event);
  }

  lemma FirstIsRow(s: State, steps: seq<Step>, event: Event, row: Row)
    requires Ok(s) && SavesNothing(steps)
    requires row in Run(s, steps).Feed(event.stream) && row.rowid == event.rowid
    ensures var later := Run(s, steps);
            var waiting := Unseen(later.Feed(event.stream), NextStart(later).At(event.stream));
            waiting != [] && waiting[0].rowid == event.rowid ==> waiting[0] == row
  {
    var later := Run(s, steps);
    RunSince(s, steps);
    assert StreamOk(later, event.stream);
    FirstUnseen(later.Feed(event.stream), NextStart(later).At(event.stream));
    var waiting := Unseen(later.Feed(event.stream), NextStart(later).At(event.stream));
    if waiting != [] && waiting[0].rowid == event.rowid {
      SameRowid(later.Feed(event.stream), waiting[0], row);
    }
  }

  /** `catch_up` picks an event exactly when it is first in its stream and the other stream does not go first. */
  lemma ChosenIff(cursor: Cursor, chatTip: int, msgs: seq<Row>, inboxTip: int, requests: seq<Row>, event: Event)
    ensures Choose(cursor, chatTip, msgs, inboxTip, requests).0 == Caught(event) <==>
            if event.stream == Chat then
              msgs != [] && msgs[0].rowid == event.rowid && (requests == [] || requests[0].at > msgs[0].at)
            else
              requests != [] && requests[0].rowid == event.rowid && (msgs == [] || msgs[0].at >= requests[0].at)
  {
  }

  /** On a database nobody writes meanwhile the next run finds whatever the scan found, unless no cursor was
      ever saved and it was a chat message: a first run starts chat at now, and now has moved past it. */
  lemma CrashReplays(s: State)
    requires Ok(s) && s.phase.HalfScanned? && s.phase.seen == s.chat
    ensures var found := CatchUp(s.chat, s.inbox, s.phase.cursor).0;
            var again := CatchUp(s.chat, s.inbox, NextStart(s)).0;
            again == found <==> !(s.file.None? && !s.fromStart && found.Caught? && found.event.stream == Chat)
  {
    var start, cursor := NextStart(s), s.phase.cursor;
    var first := s.file.None? && !s.fromStart;
    assert StreamOk(s, Chat) && StreamOk(s, Inbox);
    SameRequests(s.inbox, start.inbox, cursor.inbox, first);
    if first {
      NothingPastMax(s.chat);
    } else {
      SkippedStretch(s.chat, start.chat, cursor.chat);
    }
    SameChoice(start, Tip(s.chat, start.chat), Unseen(s.chat, start.chat), Tip(s.inbox, start.inbox),
               cursor, Tip(s.chat, cursor.chat), Unseen(s.chat, cursor.chat), Tip(s.inbox, cursor.inbox),
               Unseen(s.inbox, cursor.inbox));
  }

  /** Overtaken: the same second brings a request after the message was printed, and the tie goes to the inbox. */
  lemma RequestOvertakes(row: Row)
    requires row.rowid > 0 && !row.skip
    ensures var s := Run(Fresh([], [], true), [Start, AppendChat(row), ScanChat]);
            && s.phase.HalfScanned? && FoundBy(s) == Caught(Event(Chat, row.rowid))
            && var later := Run(s, [ScanInbox, Print, Crash, AppendInbox(1, row.at)]);
               CatchUp(later.chat, later.inbox, NextStart(later)).0 == Caught(Event(Inbox, 1))
  {
    var request := Row(1, row.at, false);
    RunThree(Fresh([], [], true), Start, AppendChat(row), ScanChat);
    var s := Run(Fresh([], [], true), [Start, AppendChat(row), ScanChat]);
    assert s.chat == [row] && s.inbox == [] && s.file.None? && s.fromStart;
    assert s.phase == HalfScanned(Cursor(0, 0), [row]);
    OnlyRowUnseen(row);
    OnlyRowUnseen(request);
    RunThree(s, ScanInbox, Print, Crash);
    var crashed := Run(s, [ScanInbox, Print, Crash]);
    RunSnoc(s, [ScanInbox, Print, Crash], AppendInbox(1, row.at));
    assert [ScanInbox, Print, Crash] + [AppendInbox(1, row.at)] == [ScanInbox, Print, Crash, AppendInbox(1, row.at)];
    assert Next(crashed, AppendInbox(1, row.at)).inbox == [request];
  }

  lemma OnlyRowUnseen(row: Row)
    requires row.rowid > 0 && !row.skip
    ensures Unseen([row], 0) == [row]
  {
    assert Unseen([row], 0) == [row] + Unseen([row][1..], 0);
  }

  lemma RunThree(s: State, a: Step, b: Step, c: Step)
    ensures Run(s, [a, b, c]) == Next(Next(Next(s, a), b), c)
  {
    assert [a, b, c][1..] == [b, c] && [b, c][1..] == [c] && [c][1..] == [];
    assert Run(Next(Next(s, a), b), [c]) == Run(Next(Next(Next(s, a), b), c), []);
  }

  lemma {:induction false} RunSnoc(s: State, steps: seq<Step>, last: Step)
    ensures Run(s, steps + [last]) == Next(Run(s, steps), last)
    decreases |steps|
  {
    if steps == [] {
      assert [] + [last] == [last] && [last][1..] == [];
      assert Run(s, [last]) == Run(Next(s, last), []);
    } else {
      assert (steps + [last])[1..] == steps[1..] + [last];
      RunSnoc(Next(s, steps[0]), steps[1..], last);
    }
  }

  /** The exception is reached: a first run reads the end of an empty chat, a message arrives and is scanned;
      killed before its cursor is saved, the next run starts past the message. */
  lemma FirstMessageIsNotReplayed(row: Row)
    requires row.rowid > 0 && !row.skip
    ensures var s := Run(Fresh([], [], false), [Start, AppendChat(row), ScanChat]);
            && s.phase.HalfScanned? && s.phase.seen == s.chat
            && CatchUp(s.chat, s.inbox, s.phase.cursor).0 == Caught(Event(Chat, row.rowid))
            && CatchUp(s.chat, s.inbox, NextStart(s)).0 == Nothing
  {
    RunThree(Fresh([], [], false), Start, AppendChat(row), ScanChat);
    assert Next(Next(Fresh([], [], false), Start), AppendChat(row)).chat == [row];
    OnlyRowUnseen(row);
    NothingPastMax([row]);
  }

  lemma SameChoice(a: Cursor, chatA: int, msgsA: seq<Row>, inboxA: int, b: Cursor, chatB: int, msgsB: seq<Row>, inboxB: int,
                   requests: seq<Row>)
    requires msgsA == msgsB || msgsA == []
    ensures var found := Choose(b, chatB, msgsB, inboxB, requests).0;
            Choose(a, chatA, msgsA, inboxA, requests).0 == found
            <==> msgsA == msgsB || found.Nothing? || found.event.stream == Inbox
  {
  }

  lemma NothingPastMax(feed: seq<Row>)
    requires Ordered(feed)
    ensures Unseen(feed, MaxRowid(feed)) == []
  {
    FirstUnseen(feed, MaxRowid(feed));
    RowsUpToMax(feed);
  }

  /** A start below the first waiting request, or reached from there over skipped rows, sees the same ones. */
  lemma SameRequests(inbox: seq<Row>, start: int, cursor: int, first: bool)
    requires Ordered(inbox) && 0 <= cursor && OnlySkipped(inbox, start, cursor + 1) && (!first ==> start <= cursor)
    requires first ==> start == InitialCursor(false, inbox, inbox, []).inbox
    ensures Unseen(inbox, start) == Unseen(inbox, cursor)
  {
    if start <= cursor {
      SkippedStretch(inbox, start, cursor);
    } else {
      FirstUnseen(inbox, 0);
      RowsUpToMax(inbox);
      SkippedStretch(inbox, cursor, start);
    }
  }
}
