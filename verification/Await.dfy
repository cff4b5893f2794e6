/** `rsntr await` as a protocol: runs of one awaiter over a database that others write,
    with the event printed before the cursor is saved and crashes anywhere in between. */
module Await {
  import opened AuthTypes
  import opened Feeds

  /** Where the one running process is. */
  datatype Phase =
    | Idle
    | Armed(cursor: Cursor)                             // about to scan, or blocked
    | HalfScanned(cursor: Cursor, seen: seq<Row>)       // chat read, inbox not yet
    | Found(event: Event, next: Cursor)                 // about to print
    | Printed(next: Cursor)                             // printed, cursor not saved
    | TimedOut(next: Cursor)

  /** A printed event, and how many crashes preceded it. */
  datatype Entry = Entry(event: Event, crashes: nat)

  /** The tables as feeds, the cursor file, the process, and history: everything printed, the crashes,
      where the cursor's line began, and the requests that were decided when a scan passed them. */
  datatype State = State(
    chat: seq<Row>,
    inbox: seq<Row>,
    file: Option<Cursor>,
    fromStart: bool,
    phase: Phase,
    log: seq<Entry>,
    crashes: nat,
    begin: Cursor,
    passed: set<int>)
  {
    function Feed(stream: Stream): seq<Row> {
      if stream == Chat then chat else inbox
    }
  }

  datatype Step =
    | AppendChat(row: Row)
    | AppendInbox(rowid: int, at: int)
    | DecideRequest(rowid: int)
    | Start
    | ScanChat
    | ScanInbox
    | Print
    | Save
    | Timeout
    | Crash

  /** Where a process started now would begin. */
  function NextStart(s: State): Cursor {
    if s.file.Some? then s.file.value else InitialCursor(s.fromStart, s.inbox, s.inbox, s.chat)
  }

  function Decided(feed: seq<Row>, rowid: int): (decided: seq<Row>)
    ensures |decided| == |feed|
    ensures forall i :: 0 <= i < |feed| ==>
      decided[i] == if feed[i].rowid == rowid then feed[i].(skip := true) else feed[i]
  {
    seq(|feed|, i requires 0 <= i < |feed| => if feed[i].rowid == rowid then feed[i].(skip := true) else feed[i])
  }

  /** The decided requests a scan reads between its own cursor and the next. */
  function DecidedBetween(feed: seq<Row>, low: int, high: int): set<int> {
    set row | row in feed && row.skip && low < row.rowid <= high :: row.rowid
  }

  /** One step; a step that is not enabled changes nothing. */
  function Next(s: State, step: Step): State {
    match step
    case AppendChat(row) =>
      if row.rowid > MaxRowid(s.chat) then s.(chat := s.chat + [row]) else s
    case AppendInbox(rowid, at) =>
      if rowid > MaxRowid(s.inbox) then s.(inbox := s.inbox + [Row(rowid, at, false)]) else s
    case DecideRequest(rowid) => s.(inbox := Decided(s.inbox, rowid))
    case Start =>
      if s.phase != Idle then s
      else s.(phase := Armed(NextStart(s)), begin := if s.file.Some? then s.begin else NextStart(s))
    case ScanChat =>
      if s.phase.Armed? then s.(phase := HalfScanned(s.phase.cursor, s.chat)) else s
    case ScanInbox =>
      if !s.phase.HalfScanned? then s
      else
        var (caught, next) := CatchUp(s.phase.seen, s.inbox, s.phase.cursor);
        s.(phase := if caught.Caught? then Found(caught.event, next) else Armed(next),
           passed := s.passed + DecidedBetween(s.inbox, s.phase.cursor.inbox, next.inbox))
    case Print =>
      if s.phase.Found? then s.(phase := Printed(s.phase.next), log := s.log + [Entry(s.phase.event, s.crashes)]) else s
    case Save =>
      if s.phase.Printed? || s.phase.TimedOut? then s.(phase := Idle, file := Some(s.phase.next)) else s
    case Timeout =>
      if s.phase.Armed? then s.(phase := TimedOut(s.phase.cursor)) else s
    case Crash =>
      s.(phase := Idle, crashes := s.crashes + 1)
  }

  function Run(s: State, steps: seq<Step>): State
    decreases |steps|
  {
    if steps == [] then s else Run(Next(s, steps[0]), steps[1..])
  }

  /** A node directory no awaiter has run in. */
  function Fresh(chat: seq<Row>, inbox: seq<Row>, fromStart: bool): State {
    State(chat, inbox, None, fromStart, Idle, [], 0, Cursor(0, 0), {})
  }

  // ----- the promises -----

  predicate WasPrinted(log: seq<Entry>, event: Event) {
    exists i :: 0 <= i < |log| && log[i].event == event
  }

  /** Every row of the stream after `begin`, up to `cursor`, was dealt with: a chat row printed unless
      the node's own, a request printed unless it was decided when scanned. */
  predicate DealtWith(stream: Stream, feed: seq<Row>, begin: int, log: seq<Entry>, passed: set<int>, cursor: int) {
    forall row :: row in feed && begin < row.rowid <= cursor ==>
      || WasPrinted(log, Event(stream, row.rowid))
      || (if stream == Chat then row.skip else row.rowid in passed)
  }

  /** Printed rowids of a stream never decrease, and one repeats only across a crash. */
  predicate OrderedLog(log: seq<Entry>) {
    forall i, j :: 0 <= i < j < |log| && log[i].event.stream == log[j].event.stream ==>
      || log[i].event.rowid < log[j].event.rowid
      || (log[i].event.rowid == log[j].event.rowid && log[i].crashes < log[j].crashes)
  }

  // ----- the invariant -----

  /** Nothing but skipped rows lies strictly between. */
  predicate OnlySkipped(feed: seq<Row>, low: int, high: int) {
    forall row :: row in feed && low < row.rowid < high ==> row.skip
  }

  /** No event printed so far has a row past `cursor` before it that would be emitted now. */
  predicate BehindLog(stream: Stream, feed: seq<Row>, log: seq<Entry>, cursor: int) {
    forall i :: 0 <= i < |log| && log[i].event.stream == stream ==> OnlySkipped(feed, cursor, log[i].event.rowid)
  }

  /** Whatever was printed since the last crash lies at or below `cursor`. */
  predicate PastEpoch(stream: Stream, log: seq<Entry>, crashes: nat, cursor: int) {
    forall i :: 0 <= i < |log| && log[i].event.stream == stream && log[i].crashes == crashes ==>
      log[i].event.rowid <= cursor
  }

  predicate LogInFeed(stream: Stream, feed: seq<Row>, log: seq<Entry>, crashes: nat) {
    forall i :: 0 <= i < |log| && log[i].event.stream == stream ==>
      log[i].event.rowid <= MaxRowid(feed) && log[i].crashes <= crashes
  }

  predicate OlderEpochs(stream: Stream, log: seq<Entry>, crashes: nat) {
    forall i :: 0 <= i < |log| && log[i].event.stream == stream ==> log[i].crashes < crashes
  }

  /** Printing `rowid` next keeps the log in order. */
  predicate AboveLog(stream: Stream, log: seq<Entry>, crashes: nat, rowid: int) {
    forall i :: 0 <= i < |log| && log[i].event.stream == stream ==>
      log[i].event.rowid <= rowid && (log[i].crashes == crashes ==> log[i].event.rowid < rowid)
  }

  /** A cursor some holder may act on. */
  predicate Sound(s: State, stream: Stream, cursor: int) {
    && 0 <= cursor <= MaxRowid(s.Feed(stream))
    && DealtWith(stream, s.Feed(stream), s.begin.At(stream), s.log, s.passed, cursor)
    && BehindLog(stream, s.Feed(stream), s.log, cursor)
  }

  /** A running process's cursor: reached from the next start over skipped rows only. */
  predicate Holds(s: State, stream: Stream, cursor: int) {
    && Sound(s, stream, cursor)
    && PastEpoch(stream, s.log, s.crashes, cursor)
    && OnlySkipped(s.Feed(stream), NextStart(s).At(stream), cursor + 1)
    && (s.file.Some? ==> s.file.value.At(stream) <= cursor)
  }

  /** An event about to be printed on its own stream. */
  predicate Due(s: State, stream: Stream, rowid: int) {
    && 0 < rowid <= MaxRowid(s.Feed(stream))
    && DealtWith(stream, s.Feed(stream), s.begin.At(stream), s.log, s.passed, rowid - 1)
    && AboveLog(stream, s.log, s.crashes, rowid)
    && OnlySkipped(s.Feed(stream), NextStart(s).At(stream), rowid)
  }

  /** A cursor about to be saved. */
  predicate Savable(s: State, stream: Stream, cursor: int) {
    Sound(s, stream, cursor) && PastEpoch(stream, s.log, s.crashes, cursor)
  }

  predicate PhaseOk(s: State, stream: Stream) {
    match s.phase
    case Idle => s.file.None? ==> OlderEpochs(stream, s.log, s.crashes)
    case Armed(cursor) => Holds(s, stream, cursor.At(stream))
    case HalfScanned(cursor, seen) => Holds(s, stream, cursor.At(stream)) && seen <= s.chat
    case Found(event, next) =>
      if event.stream == stream then next.At(stream) == event.rowid && Due(s, stream, event.rowid)
      else Savable(s, stream, next.At(stream))
    case Printed(next) => Savable(s, stream, next.At(stream))
    case TimedOut(next) => Savable(s, stream, next.At(stream))
  }

  /** What holds of the file and the log whatever the process does. */
  predicate RestOk(s: State, stream: Stream) {
    && Ordered(s.Feed(stream))
    && LogInFeed(stream, s.Feed(stream), s.log, s.crashes)
    && BehindLog(stream, s.Feed(stream), s.log, NextStart(s).At(stream))
    && (s.file.Some? ==> Sound(s, stream, s.file.value.At(stream)))
    && (s.file.Some? && s.phase.Idle? ==> PastEpoch(stream, s.log, s.crashes, s.file.value.At(stream)))
  }

  predicate StreamOk(s: State, stream: Stream) {
    RestOk(s, stream) && PhaseOk(s, stream)
  }

  predicate Ok(s: State) {
    StreamOk(s, Chat) && StreamOk(s, Inbox) && OrderedLog(s.log)
  }

  lemma FreshOk(chat: seq<Row>, inbox: seq<Row>, fromStart: bool)
    requires Ordered(chat) && Ordered(inbox)
    ensures Ok(Fresh(chat, inbox, fromStart))
  {
  }

  // ----- writers -----

  lemma RowsUpToMax(feed: seq<Row>)
    requires Ordered(feed)
    ensures forall row :: row in feed ==> 0 < row.rowid <= MaxRowid(feed)
    ensures MaxRowid(feed) >= 0
  {
  }

  lemma AppendedFeed(feed: seq<Row>, row: Row)
    requires Ordered(feed) && row.rowid > MaxRowid(feed)
    ensures Ordered(feed + [row]) && MaxRowid(feed + [row]) == row.rowid
    ensures forall r :: r in feed + [row] <==> r in feed || r == row
  {
    RowsUpToMax(feed);
  }

  /** The next start after an append: the same, or past every row there was. */
  lemma NextStartAfterAppend(s: State, step: Step, stream: Stream)
    requires Ordered(s.chat) && Ordered(s.inbox) && (step.AppendChat? || step.AppendInbox?)
    ensures var before, after := NextStart(s).At(stream), NextStart(Next(s, step)).At(stream);
            after == before || (s.file.None? && after >= MaxRowid(s.Feed(stream)))
  {
    RowsUpToMax(s.chat);
    RowsUpToMax(s.inbox);
    if step.AppendInbox? && step.rowid > MaxRowid(s.inbox) {
      var row := Row(step.rowid, step.at, false);
      UnseenSnoc(s.inbox, row, 0);
    }
  }

  lemma {:induction false} UnseenSnoc(feed: seq<Row>, row: Row, cursor: int)
    ensures Unseen(feed + [row], cursor)
            == Unseen(feed, cursor) + (if row.rowid > cursor && !row.skip then [row] else [])
  {
    if feed == [] {
      assert feed + [row] == [row];
    } else {
      assert (feed + [row])[1..] == feed[1..] + [row];
      UnseenSnoc(feed[1..], row, cursor);
    }
  }

  /** What a writer may do to one feed: add rows past the end, and decide waiting requests. */
  predicate Written(stream: Stream, feed: seq<Row>, feed': seq<Row>) {
    && Ordered(feed) && Ordered(feed') && MaxRowid(feed) <= MaxRowid(feed')
    && forall row :: row in feed' ==>
         row in feed || row.rowid > MaxRowid(feed) || (stream == Inbox && row.skip && row.(skip := false) in feed)
  }

  /** The same process and history over written feeds. */
  predicate Wrote(s: State, s': State, stream: Stream) {
    && s'.file == s.file && s'.phase == s.phase && s'.log == s.log && s'.crashes == s.crashes
    && s'.begin == s.begin && s'.passed == s.passed
    && s.chat <= s'.chat
    && Written(stream, s.Feed(stream), s'.Feed(stream))
    && (NextStart(s).At(stream) <= NextStart(s').At(stream) || MaxRowid(s.Feed(stream)) <= NextStart(s').At(stream))
  }

  lemma OnlySkippedWritten(stream: Stream, feed: seq<Row>, feed': seq<Row>, low: int, low': int, high: int)
    requires Written(stream, feed, feed') && OnlySkipped(feed, low, high) && high <= MaxRowid(feed) + 1
    requires low <= low' || MaxRowid(feed) <= low'
    ensures OnlySkipped(feed', low', high)
  {
    forall row | row in feed' && low' < row.rowid < high
      ensures row.skip
    {
    }
  }

  lemma DealtWithWritten(stream: Stream, feed: seq<Row>, feed': seq<Row>, begin: int, log: seq<Entry>, passed: set<int>, cursor: int)
    requires Written(stream, feed, feed') && cursor <= MaxRowid(feed) && DealtWith(stream, feed, begin, log, passed, cursor)
    ensures DealtWith(stream, feed', begin, log, passed, cursor)
  {
    forall row | row in feed' && begin < row.rowid <= cursor
      ensures || WasPrinted(log, Event(stream, row.rowid))
              || (if stream == Chat then row.skip else row.rowid in passed)
    {
      var was := if row in feed then row else row.(skip := false);
      assert was in feed;
    }
  }

  lemma BehindWritten(stream: Stream, feed: seq<Row>, feed': seq<Row>, log: seq<Entry>, crashes: nat, low: int, low': int)
    requires Written(stream, feed, feed') && LogInFeed(stream, feed, log, crashes) && BehindLog(stream, feed, log, low)
    requires low <= low' || MaxRowid(feed) <= low'
    ensures BehindLog(stream, feed', log, low')
  {
    forall i | 0 <= i < |log| && log[i].event.stream == stream
      ensures OnlySkipped(feed', low', log[i].event.rowid)
    {
      OnlySkippedWritten(stream, feed, feed', low, low', log[i].event.rowid);
    }
  }

  lemma SoundWritten(s: State, s': State, stream: Stream, cursor: int)
    requires Wrote(s, s', stream) && LogInFeed(stream, s.Feed(stream), s.log, s.crashes) && Sound(s, stream, cursor)
    ensures Sound(s', stream, cursor)
  {
    DealtWithWritten(stream, s.Feed(stream), s'.Feed(stream), s.begin.At(stream), s.log, s.passed, cursor);
    BehindWritten(stream, s.Feed(stream), s'.Feed(stream), s.log, s.crashes, cursor, cursor);
  }

  lemma DueWritten(s: State, s': State, stream: Stream, rowid: int)
    requires Wrote(s, s', stream) && Due(s, stream, rowid)
    ensures Due(s', stream, rowid)
  {
    DealtWithWritten(stream, s.Feed(stream), s'.Feed(stream), s.begin.At(stream), s.log, s.passed, rowid - 1);
    OnlySkippedWritten(stream, s.Feed(stream), s'.Feed(stream), NextStart(s).At(stream), NextStart(s').At(stream), rowid);
  }

  lemma HoldsWritten(s: State, s': State, stream: Stream, cursor: int)
    requires Wrote(s, s', stream) && LogInFeed(stream, s.Feed(stream), s.log, s.crashes) && Holds(s, stream, cursor)
    ensures Holds(s', stream, cursor)
  {
    SoundWritten(s, s', stream, cursor);
    OnlySkippedWritten(stream, s.Feed(stream), s'.Feed(stream), NextStart(s).At(stream), NextStart(s').At(stream), cursor + 1);
  }

  lemma PhaseWritten(s: State, s': State, stream: Stream)
    requires Wrote(s, s', stream) && LogInFeed(stream, s.Feed(stream), s.log, s.crashes) && PhaseOk(s, stream)
    ensures PhaseOk(s', stream)
  {
    match s.phase
    case Idle =>
    case Armed(cursor) => HoldsWritten(s, s', stream, cursor.At(stream));
    case HalfScanned(cursor, seen) => HoldsWritten(s, s', stream, cursor.At(stream));
    case Found(event, next) =>
      if event.stream == stream {
        DueWritten(s, s', stream, event.rowid);
      } else {
        SoundWritten(s, s', stream, next.At(stream));
      }
    case Printed(next) => SoundWritten(s, s', stream, next.At(stream));
    case TimedOut(next) => SoundWritten(s, s', stream, next.At(stream));
  }

  lemma RestWritten(s: State, s': State, stream: Stream)
    requires Wrote(s, s', stream) && RestOk(s, stream)
    ensures RestOk(s', stream)
  {
    BehindWritten(stream, s.Feed(stream), s'.Feed(stream), s.log, s.crashes, NextStart(s).At(stream), NextStart(s').At(stream));
    if s.file.Some? {
      SoundWritten(s, s', stream, s.file.value.At(stream));
    }
  }

  lemma WriteKeeps(s: State, s': State, stream: Stream)
    requires StreamOk(s, stream) && Wrote(s, s', stream)
    ensures StreamOk(s', stream)
  {
    RestWritten(s, s', stream);
    PhaseWritten(s, s', stream);
  }

  lemma AppendWrites(s: State, step: Step, stream: Stream)
    requires Ordered(s.chat) && Ordered(s.inbox) && (step.AppendChat? || step.AppendInbox?)
    ensures Wrote(s, Next(s, step), stream)
  {
    NextStartAfterAppend(s, step, stream);
    if step.AppendChat? && step.row.rowid > MaxRowid(s.chat) {
      AppendedFeed(s.chat, step.row);
    } else if step.AppendInbox? && step.rowid > MaxRowid(s.inbox) {
      AppendedFeed(s.inbox, Row(step.rowid, step.at, false));
    }
  }

  lemma DecidedFeed(feed: seq<Row>, rowid: int)
    requires Ordered(feed)
    ensures var after := Decided(feed, rowid);
            && Ordered(after) && MaxRowid(after) == MaxRowid(feed)
            && (forall row :: row in after ==> row in feed || (row.skip && row.(skip := false) in feed) || (row.skip && row in feed))
            && (forall row :: row in feed ==> row in after || row.(skip := true) in after)
  {
    var after := Decided(feed, rowid);
    forall row | row in feed ensures row in after || row.(skip := true) in after {
      var i :| 0 <= i < |feed| && feed[i] == row;
      assert after[i] in after;
    }
  }

  lemma FirstCursorAfterDecision(inbox: seq<Row>, after: seq<Row>, chat: seq<Row>)
    requires Ordered(inbox) && Ordered(after) && Grown(inbox, after) && MaxRowid(after) == MaxRowid(inbox)
    requires forall row :: row in after && !row.skip ==> row in inbox
    ensures InitialCursor(false, inbox, inbox, chat).inbox <= InitialCursor(false, after, after, chat).inbox
  {
    RowsUpToMax(inbox);
    FirstUnseen(after, 0);
    FirstUnseen(inbox, 0);
    if Unseen(inbox, 0) != [] && Unseen(after, 0) != [] {
      WaitingRowsAreLater(inbox, after, Unseen(after, 0)[0]);
    }
  }

  /** A decision only moves the next start forward. */
  lemma NextStartAfterDecision(s: State, rowid: int, stream: Stream)
    requires Ordered(s.chat) && Ordered(s.inbox)
    ensures NextStart(s).At(stream) <= NextStart(Next(s, DecideRequest(rowid))).At(stream)
  {
    DecidedFeed(s.inbox, rowid);
    FirstCursorAfterDecision(s.inbox, Decided(s.inbox, rowid), s.chat);
  }

  lemma DecideWrites(s: State, rowid: int, stream: Stream)
    requires Ordered(s.chat) && Ordered(s.inbox)
    ensures Wrote(s, Next(s, DecideRequest(rowid)), stream)
  {
    NextStartAfterDecision(s, rowid, stream);
    DecidedFeed(s.inbox, rowid);
  }

  // ----- the process -----

  lemma NextStartInRange(s: State, stream: Stream)
    requires Ordered(s.chat) && Ordered(s.inbox) && s.file.None?
    ensures 0 <= NextStart(s).At(stream) <= MaxRowid(s.Feed(stream))
  {
    RowsUpToMax(s.chat);
    RowsUpToMax(s.inbox);
    FirstUnseen(s.inbox, 0);
  }

  lemma StartKeeps(s: State, stream: Stream)
    requires StreamOk(s, stream) && Ordered(s.chat) && Ordered(s.inbox)
    ensures StreamOk(Next(s, Start), stream)
  {
    if s.phase.Idle? && s.file.None? {
      NextStartInRange(s, stream);
      assert OlderEpochs(stream, s.log, s.crashes);
    }
  }

  lemma ScanChatKeeps(s: State, stream: Stream)
    requires StreamOk(s, stream)
    ensures StreamOk(Next(s, ScanChat), stream)
  {
  }

  /** The part of a feed the scan has read. */
  function SeenFeed(s: State, stream: Stream): seq<Row>
    requires s.phase.HalfScanned?
  {
    if stream == Chat then s.phase.seen else s.inbox
  }

  /** Rows at or below a row that was read were read too. */
  lemma PrefixHas(feed: seq<Row>, seen: seq<Row>, high: int)
    requires Ordered(feed) && seen <= feed && high <= MaxRowid(seen)
    ensures Ordered(seen) && MaxRowid(seen) <= MaxRowid(feed)
    ensures forall row :: row in feed && row.rowid <= high ==> row in seen
  {
    RowsUpToMax(feed);
    if seen != [] {
      assert seen[|seen| - 1] == feed[|seen| - 1];
    }
    forall i | |seen| <= i < |feed| ensures feed[i].rowid > high {
    }
  }

  /** Scanning a stream without events only passes skipped rows. */
  lemma QuietStretch(feed: seq<Row>, seen: seq<Row>, cursor: int)
    requires Ordered(feed) && seen <= feed && 0 <= cursor <= MaxRowid(feed) && Unseen(seen, cursor) == []
    ensures cursor <= Tip(seen, cursor) <= MaxRowid(feed) && OnlySkipped(feed, cursor, Tip(seen, cursor) + 1)
  {
    assert Ordered(seen);
    TipIsLast(seen, cursor);
    FirstUnseen(seen, cursor);
    if MaxRowid(seen) > cursor {
      PrefixHas(feed, seen, MaxRowid(seen));
    }
  }

  /** The first event of a scan has only skipped rows between it and the cursor. */
  lemma EventStretch(feed: seq<Row>, seen: seq<Row>, cursor: int)
    requires Ordered(feed) && seen <= feed && Unseen(seen, cursor) != []
    ensures var first := Unseen(seen, cursor)[0];
            && first in feed && !first.skip && cursor < first.rowid <= MaxRowid(feed) && 0 < first.rowid
            && OnlySkipped(feed, cursor, first.rowid)
  {
    assert Ordered(seen);
    FirstUnseen(seen, cursor);
    RowsUpToMax(seen);
    RowsUpToMax(feed);
    PrefixHas(feed, seen, Unseen(seen, cursor)[0].rowid);
  }

  /** A cursor moved over skipped rows, the decided requests among them noted. */
  lemma DealtWithStretch(stream: Stream, feed: seq<Row>, begin: int, log: seq<Entry>, passed: set<int>, passed': set<int>, low: int, high: int)
    requires DealtWith(stream, feed, begin, log, passed, low) && OnlySkipped(feed, low, high + 1)
    requires passed <= passed' && (stream == Inbox ==> forall row :: row in feed && row.skip && low < row.rowid <= high ==> row.rowid in passed')
    ensures DealtWith(stream, feed, begin, log, passed', high)
  {
  }

  /** A stream without events: its cursor moves to the end of what was read. */
  lemma QuietScan(s: State, s': State, stream: Stream, cursor: int, seen: seq<Row>)
    requires Holds(s, stream, cursor) && Ordered(s.Feed(stream)) && seen <= s.Feed(stream) && Unseen(seen, cursor) == []
    requires s' == s.(phase := s'.phase, passed := s'.passed) && s.passed <= s'.passed
    requires stream == Inbox ==>
               forall row :: row in s.inbox && row.skip && cursor < row.rowid <= Tip(seen, cursor) ==> row.rowid in s'.passed
    ensures Holds(s', stream, Tip(seen, cursor))
  {
    var feed, tip := s.Feed(stream), Tip(seen, cursor);
    QuietStretch(feed, seen, cursor);
    DealtWithStretch(stream, feed, s.begin.At(stream), s.log, s.passed, s'.passed, cursor, tip);
    BehindFurther(stream, feed, s.log, cursor, tip);
  }

  lemma BehindFurther(stream: Stream, feed: seq<Row>, log: seq<Entry>, low: int, low': int)
    requires BehindLog(stream, feed, log, low) && low <= low'
    ensures BehindLog(stream, feed, log, low')
  {
    forall i | 0 <= i < |log| && log[i].event.stream == stream
      ensures OnlySkipped(feed, low', log[i].event.rowid)
    {
      assert OnlySkipped(feed, low, log[i].event.rowid);
    }
  }

  /** A stream left where it was. */
  lemma HeldScan(s: State, s': State, stream: Stream, cursor: int)
    requires Sound(s, stream, cursor)
    requires s' == s.(phase := s'.phase, passed := s'.passed) && s.passed <= s'.passed
    ensures Sound(s', stream, cursor)
  {
    assert DealtWith(stream, s.Feed(stream), s.begin.At(stream), s.log, s'.passed, cursor);
  }

  /** The stream whose first unseen row was picked. */
  lemma EventScan(s: State, s': State, stream: Stream, cursor: int, seen: seq<Row>)
    requires Holds(s, stream, cursor) && Ordered(s.Feed(stream)) && seen <= s.Feed(stream) && Unseen(seen, cursor) != []
    requires s' == s.(phase := s'.phase, passed := s'.passed) && s.passed <= s'.passed
    requires stream == Inbox ==>
               forall row :: row in s.inbox && row.skip && cursor < row.rowid <= Unseen(seen, cursor)[0].rowid ==> row.rowid in s'.passed
    ensures Due(s', stream, Unseen(seen, cursor)[0].rowid)
  {
    var feed, first := s.Feed(stream), Unseen(seen, cursor)[0];
    EventStretch(feed, seen, cursor);
    DealtWithStretch(stream, feed, s.begin.At(stream), s.log, s.passed, s'.passed, cursor, first.rowid - 1);
    AboveFirst(stream, feed, s.log, s.crashes, cursor, first);
  }

  lemma AboveFirst(stream: Stream, feed: seq<Row>, log: seq<Entry>, crashes: nat, cursor: int, first: Row)
    requires BehindLog(stream, feed, log, cursor) && PastEpoch(stream, log, crashes, cursor)
    requires first in feed && !first.skip && first.rowid > cursor
    ensures AboveLog(stream, log, crashes, first.rowid)
  {
    forall i | 0 <= i < |log| && log[i].event.stream == stream
      ensures log[i].event.rowid <= first.rowid
    {
      assert OnlySkipped(feed, cursor, log[i].event.rowid);
    }
  }

  /** Neither the phase nor what was passed matters to the file and the log. */
  lemma ScanKeepsRest(s: State, s': State, stream: Stream)
    requires RestOk(s, stream) && s' == s.(phase := s'.phase, passed := s'.passed) && s.passed <= s'.passed
    requires !s'.phase.Idle?
    ensures RestOk(s', stream)
  {
    if s.file.Some? {
      HeldScan(s, s', stream, s.file.value.At(stream));
    }
  }

  lemma ScanInboxPhase(s: State, stream: Stream)
    requires s.phase.HalfScanned? && PhaseOk(s, stream) && Ordered(s.Feed(stream))
    ensures PhaseOk(Next(s, ScanInbox), stream)
  {
    var s' := Next(s, ScanInbox);
    var cursor, seen := s.phase.cursor.At(stream), SeenFeed(s, stream);
    var (caught, next) := CatchUp(s.phase.seen, s.inbox, s.phase.cursor);
    forall row | row in s.inbox && row.skip && s.phase.cursor.inbox < row.rowid <= next.inbox
      ensures row.rowid in s'.passed
    {
      assert row.rowid in DecidedBetween(s.inbox, s.phase.cursor.inbox, next.inbox);
    }
    if Unseen(seen, cursor) == [] {
      QuietScan(s, s', stream, cursor, seen);
    } else if caught.event.stream == stream {
      EventScan(s, s', stream, cursor, seen);
    } else {
      HeldScan(s, s', stream, cursor);
    }
  }

  lemma ScanInboxKeeps(s: State, stream: Stream)
    requires StreamOk(s, stream)
    ensures StreamOk(Next(s, ScanInbox), stream)
  {
    if s.phase.HalfScanned? {
      ScanInboxPhase(s, stream);
      ScanKeepsRest(s, Next(s, ScanInbox), stream);
    }
  }

  lemma PrintedStays(log: seq<Entry>, entry: Entry, event: Event)
    requires WasPrinted(log, event) || entry.event == event
    ensures WasPrinted(log + [entry], event)
  {
    var log' := log + [entry];
    if WasPrinted(log, event) {
      var i :| 0 <= i < |log| && log[i].event == event;
      assert log'[i].event == event;
    } else {
      assert log'[|log|].event == event;
    }
  }

  lemma DealtWithPrinted(stream: Stream, feed: seq<Row>, begin: int, log: seq<Entry>, entry: Entry, passed: set<int>, cursor: int)
    requires DealtWith(stream, feed, begin, log, passed, cursor)
    ensures DealtWith(stream, feed, begin, log + [entry], passed, cursor)
    ensures entry.event == Event(stream, cursor + 1) ==> DealtWith(stream, feed, begin, log + [entry], passed, cursor + 1)
  {
    forall row | row in feed && (WasPrinted(log, Event(stream, row.rowid)) || entry.event == Event(stream, row.rowid))
      ensures WasPrinted(log + [entry], Event(stream, row.rowid))
    {
      PrintedStays(log, entry, Event(stream, row.rowid));
    }
  }

  lemma BehindPrinted(stream: Stream, feed: seq<Row>, log: seq<Entry>, entry: Entry, cursor: int)
    requires BehindLog(stream, feed, log, cursor)
    requires entry.event.stream == stream ==> OnlySkipped(feed, cursor, entry.event.rowid)
    ensures BehindLog(stream, feed, log + [entry], cursor)
  {
  }

  lemma SoundPrinted(s: State, entry: Entry, stream: Stream, cursor: int)
    requires Sound(s, stream, cursor)
    requires entry.event.stream == stream ==> OnlySkipped(s.Feed(stream), cursor, entry.event.rowid)
    ensures Sound(s.(log := s.log + [entry]), stream, cursor)
  {
    DealtWithPrinted(stream, s.Feed(stream), s.begin.At(stream), s.log, entry, s.passed, cursor);
    BehindPrinted(stream, s.Feed(stream), s.log, entry, cursor);
  }

  lemma DuePrinted(s: State, entry: Entry, stream: Stream)
    requires Due(s, stream, entry.event.rowid) && entry == Entry(Event(stream, entry.event.rowid), s.crashes)
    ensures Savable(s.(log := s.log + [entry]), stream, entry.event.rowid)
  {
    var rowid, log' := entry.event.rowid, s.log + [entry];
    DealtWithPrinted(stream, s.Feed(stream), s.begin.At(stream), s.log, entry, s.passed, rowid - 1);
    forall i | 0 <= i < |log'| && log'[i].event.stream == stream
      ensures log'[i].event.rowid <= rowid
    {
    }
    assert BehindLog(stream, s.Feed(stream), log', rowid);
  }

  lemma PrintRest(s: State, entry: Entry, stream: Stream)
    requires RestOk(s, stream) && !s.phase.Idle? && entry.crashes == s.crashes
    requires entry.event.stream == stream ==> Due(s, stream, entry.event.rowid)
    ensures RestOk(s.(log := s.log + [entry]), stream)
  {
    BehindPrinted(stream, s.Feed(stream), s.log, entry, NextStart(s).At(stream));
    if s.file.Some? {
      SoundPrinted(s, entry, stream, s.file.value.At(stream));
    }
  }

  /** The cursor of a printed event may be saved. */
  lemma PrintedSavable(s: State, entry: Entry, stream: Stream)
    requires s.phase.Found? && entry == Entry(s.phase.event, s.crashes) && PhaseOk(s, stream)
    ensures Savable(s.(log := s.log + [entry]), stream, s.phase.next.At(stream))
  {
    if entry.event.stream == stream {
      DuePrinted(s, entry, stream);
    } else {
      SoundPrinted(s, entry, stream, s.phase.next.At(stream));
    }
  }

  lemma PrintKeeps(s: State, stream: Stream)
    requires StreamOk(s, stream)
    ensures StreamOk(Next(s, Print), stream)
  {
    if s.phase.Found? {
      var entry := Entry(s.phase.event, s.crashes);
      PrintRest(s, entry, stream);
      PrintedSavable(s, entry, stream);
      MovedOn(s.(log := s.log + [entry]), Printed(s.phase.next), stream);
    }
  }

  /** Moving to the printed phase. */
  lemma MovedOn(s: State, phase: Phase, stream: Stream)
    requires RestOk(s, stream) && phase.Printed? && Savable(s, stream, phase.next.At(stream))
    ensures StreamOk(s.(phase := phase), stream)
  {
    var s' := s.(phase := phase);
    assert NextStart(s') == NextStart(s);
    SoundIgnoresProcess(s, s', stream, phase.next.At(stream));
    if s.file.Some? {
      SoundIgnoresProcess(s, s', stream, s.file.value.At(stream));
    }
  }

  /** A cursor is sound whatever the process does with it. */
  lemma SoundIgnoresProcess(s: State, s': State, stream: Stream, cursor: int)
    requires s' == s.(phase := s'.phase, crashes := s'.crashes, file := s'.file)
    ensures Sound(s', stream, cursor) <==> Sound(s, stream, cursor)
  {
  }

  /** After a crash everything printed is of an earlier epoch. */
  lemma NewEpoch(stream: Stream, feed: seq<Row>, log: seq<Entry>, crashes: nat, cursor: int)
    requires LogInFeed(stream, feed, log, crashes)
    ensures LogInFeed(stream, feed, log, crashes + 1) && OlderEpochs(stream, log, crashes + 1)
    ensures PastEpoch(stream, log, crashes + 1, cursor)
  {
  }

  lemma OrderedSnoc(log: seq<Entry>, entry: Entry, feed: seq<Row>)
    requires OrderedLog(log) && AboveLog(entry.event.stream, log, entry.crashes, entry.event.rowid)
    requires LogInFeed(entry.event.stream, feed, log, entry.crashes)
    ensures OrderedLog(log + [entry])
  {
    var log' := log + [entry];
    forall i, j | 0 <= i < j < |log'| && log'[i].event.stream == log'[j].event.stream
      ensures || log'[i].event.rowid < log'[j].event.rowid
              || (log'[i].event.rowid == log'[j].event.rowid && log'[i].crashes < log'[j].crashes)
    {
      assert log'[i] == log[i];
      if j < |log| {
        assert log'[j] == log[j];
      }
    }
  }

  lemma PrintOrdered(s: State, stream: Stream)
    requires OrderedLog(s.log) && s.phase.Found? && s.phase.event.stream == stream && StreamOk(s, stream)
    ensures OrderedLog(Next(s, Print).log)
  {
    OrderedSnoc(s.log, Entry(s.phase.event, s.crashes), s.Feed(stream));
  }

  /** Saving a cursor the process may act on. */
  lemma SavedOk(s: State, stream: Stream, next: Cursor)
    requires RestOk(s, stream) && Savable(s, stream, next.At(stream))
    ensures StreamOk(s.(phase := Idle, file := Some(next)), stream)
  {
    var s' := s.(phase := Idle, file := Some(next));
    assert NextStart(s') == next;
    SoundIgnoresProcess(s, s', stream, next.At(stream));
  }

  lemma SaveKeeps(s: State, stream: Stream)
    requires StreamOk(s, stream)
    ensures StreamOk(Next(s, Save), stream)
  {
    if s.phase.Printed? || s.phase.TimedOut? {
      SavedOk(s, stream, s.phase.next);
    }
  }

  lemma TimeoutKeeps(s: State, stream: Stream)
    requires StreamOk(s, stream)
    ensures StreamOk(Next(s, Timeout), stream)
  {
  }

  lemma CrashKeeps(s: State, stream: Stream)
    requires StreamOk(s, stream)
    ensures StreamOk(Next(s, Crash), stream)
  {
    var s' := Next(s, Crash);
    assert NextStart(s') == NextStart(s);
    NewEpoch(stream, s.Feed(stream), s.log, s.crashes, NextStart(s).At(stream));
    if s.file.Some? {
      SoundIgnoresProcess(s, s', stream, s.file.value.At(stream));
    }
  }

  lemma StepKeepsStream(s: State, step: Step, stream: Stream)
    requires StreamOk(s, stream) && Ordered(s.chat) && Ordered(s.inbox)
    ensures StreamOk(Next(s, step), stream)
  {
    match step
    case AppendChat(_) => AppendWrites(s, step, stream); WriteKeeps(s, Next(s, step), stream);
    case AppendInbox(_, _) => AppendWrites(s, step, stream); WriteKeeps(s, Next(s, step), stream);
    case DecideRequest(rowid) => DecideWrites(s, rowid, stream); WriteKeeps(s, Next(s, step), stream);
    case Start => StartKeeps(s, stream);
    case ScanChat => ScanChatKeeps(s, stream);
    case ScanInbox => ScanInboxKeeps(s, stream);
    case Print => PrintKeeps(s, stream);
    case Save => SaveKeeps(s, stream);
    case Timeout => TimeoutKeeps(s, stream);
    case Crash => CrashKeeps(s, stream);
  }

  /** Only printing adds to the log. */
  lemma OnlyPrintLogs(s: State, step: Step)
    ensures step != Print || !s.phase.Found? ==> Next(s, step).log == s.log
  {
  }

  lemma StepKeepsOrder(s: State, step: Step)
    requires Ok(s)
    ensures OrderedLog(Next(s, step).log)
  {
    OnlyPrintLogs(s, step);
    if s.phase.Found? && step == Print {
      PrintOrdered(s, s.phase.event.stream);
    }
  }

  lemma StepKeeps(s: State, step: Step)
    requires Ok(s)
    ensures Ok(Next(s, step))
  {
    var s' := Next(s, step);
    assert StreamOk(s', Chat) by {
      StepKeepsStream(s, step, Chat);
    }
    assert StreamOk(s', Inbox) by {
      StepKeepsStream(s, step, Inbox);
    }
    assert OrderedLog(s'.log) by {
      StepKeepsOrder(s, step);
    }
  }

  lemma {:induction false} RunKeeps(s: State, steps: seq<Step>)
    requires Ok(s)
    ensures Ok(Run(s, steps))
    decreases |steps|
  {
    if steps != [] {
      StepKeeps(s, steps[0]);
      RunKeeps(Next(s, steps[0]), steps[1..]);
    }
  }

  // ----- main results -----

  /** Over every interleaving of writers, runs, timeouts and crashes: whatever the saved cursor has passed
      was printed, or was an own message, or a request already decided when it was scanned. */
  lemma AtLeastOnce(chat: seq<Row>, inbox: seq<Row>, fromStart: bool, steps: seq<Step>)
    requires Ordered(chat) && Ordered(inbox)
    ensures var s := Run(Fresh(chat, inbox, fromStart), steps);
            s.file.Some? ==> forall stream ::
              DealtWith(stream, s.Feed(stream), s.begin.At(stream), s.log, s.passed, s.file.value.At(stream))
  {
    FreshOk(chat, inbox, fromStart);
    RunKeeps(Fresh(chat, inbox, fromStart), steps);
    var s := Run(Fresh(chat, inbox, fromStart), steps);
    assert RestOk(s, Chat) && RestOk(s, Inbox);
  }

  lemma PrintedInOrder(chat: seq<Row>, inbox: seq<Row>, fromStart: bool, steps: seq<Step>)
    requires Ordered(chat) && Ordered(inbox)
    ensures OrderedLog(Run(Fresh(chat, inbox, fromStart), steps).log)
  {
    FreshOk(chat, inbox, fromStart);
    RunKeeps(Fresh(chat, inbox, fromStart), steps);
  }
}
