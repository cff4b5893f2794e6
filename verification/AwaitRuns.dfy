/** Whole runs of `rsntr await`, and what the history variables of the protocol stand for. */
module AwaitRuns {
  import opened AuthTypes
  import opened Feeds
  import opened Await

  // ----- one run on a quiet database -----

  /** Nobody interferes: a run that finds an event prints it and saves the cursor after it. */
  lemma RunWithEvent(s: State, event: Event, next: Cursor)
    requires s.phase == Idle && CatchUp(s.chat, s.inbox, NextStart(s)) == (Caught(event), next)
    ensures var after := Run(s, [Start, ScanChat, ScanInbox, Print, Save]);
            && after.file == Some(next) && after.phase == Idle
            && after.log == s.log + [Entry(event, s.crashes)]
            && after.chat == s.chat && after.inbox == s.inbox && after.crashes == s.crashes
  {
    var start := NextStart(s);
    var armed := Next(s, Start);
    var half := Next(armed, ScanChat);
    var found := Next(half, ScanInbox);
    assert armed.phase == Armed(start) && half.phase == HalfScanned(start, s.chat);
    assert found.phase == Found(event, next) && found.log == s.log;
    FiveSteps(s, Start, ScanChat, ScanInbox, Print, Save);
  }

  /** A run that finds none until its deadline saves a cursor past everything it read. */
  lemma RunWithoutEvent(s: State, next: Cursor)
    requires s.phase == Idle && CatchUp(s.chat, s.inbox, NextStart(s)) == (Nothing, next)
    ensures var after := Run(s, [Start, ScanChat, ScanInbox, Timeout, Save]);
            && after.file == Some(next) && after.phase == Idle && after.log == s.log
            && after.chat == s.chat && after.inbox == s.inbox && after.crashes == s.crashes
            && (forall row :: row in s.chat ==> row.rowid <= next.chat)
            && (forall row :: row in s.inbox ==> row.rowid <= next.inbox)
  {
    var start := NextStart(s);
    var armed := Next(s, Start);
    var half := Next(armed, ScanChat);
    assert armed.phase == Armed(start) && half.phase == HalfScanned(start, s.chat);
    assert Next(half, ScanInbox).phase == Armed(next);
    FiveSteps(s, Start, ScanChat, ScanInbox, Timeout, Save);
    TipGrows(s.chat, start.chat);
    TipGrows(s.inbox, start.inbox);
  }

  lemma FiveSteps(s: State, a: Step, b: Step, c: Step, d: Step, e: Step)
    ensures Run(s, [a, b, c, d, e]) == Next(Next(Next(Next(Next(s, a), b), c), d), e)
  {
    var t := Next(Next(Next(s, a), b), c);
    assert [a, b, c, d, e][1..] == [b, c, d, e] && [b, c, d, e][1..] == [c, d, e] && [c, d, e][1..] == [d, e];
    assert [d, e][1..] == [e] && [e][1..] == [];
    assert Run(Next(t, d), [e]) == Run(Next(Next(t, d), e), []);
    assert Run(t, [d, e]) == Run(Next(t, d), [e]);
    assert Run(Next(Next(s, a), b), [c, d, e]) == Run(t, [d, e]);
    assert Run(Next(s, a), [b, c, d, e]) == Run(Next(Next(s, a), b), [c, d, e]);
  }

  /** Writers: a row appended past the last one is there, waiting or as sent; a decided request is decided. */
  lemma WritersWrite(s: State, row: Row, rowid: int, at: int)
    ensures row.rowid > MaxRowid(s.chat) ==> Next(s, AppendChat(row)).chat == s.chat + [row]
    ensures rowid > MaxRowid(s.inbox) ==> Next(s, AppendInbox(rowid, at)).inbox == s.inbox + [Row(rowid, at, false)]
    ensures forall i :: 0 <= i < |s.inbox| && s.inbox[i].rowid == rowid ==>
              i < |Next(s, DecideRequest(rowid)).inbox| && Next(s, DecideRequest(rowid)).inbox[i] == s.inbox[i].(skip := true)
  {
  }

  /** A crash loses the process and its cursor, and nothing else. */
  lemma CrashLosesTheProcess(s: State)
    ensures Next(s, Crash) == s.(phase := Idle, crashes := s.crashes + 1)
  {
  }

  // ----- the history variables -----

  /** The requests noted as decided when scanned are decided. */
  predicate PassedAreDecided(s: State) {
    forall rowid :: rowid in s.passed ==> exists i :: 0 <= i < |s.inbox| && s.inbox[i].rowid == rowid && s.inbox[i].skip
  }

  lemma StepKeepsPassed(s: State, step: Step)
    requires PassedAreDecided(s)
    ensures PassedAreDecided(Next(s, step))
  {
    var s' := Next(s, step);
    forall rowid | rowid in s'.passed
      ensures exists i :: 0 <= i < |s'.inbox| && s'.inbox[i].rowid == rowid && s'.inbox[i].skip
    {
      if rowid in s.passed {
        var i :| 0 <= i < |s.inbox| && s.inbox[i].rowid == rowid && s.inbox[i].skip;
        assert s'.inbox[i].rowid == rowid && s'.inbox[i].skip;
      } else {
        var row :| row in s.inbox && row.skip && row.rowid == rowid;
        var i :| 0 <= i < |s.inbox| && s.inbox[i] == row;
        assert s'.inbox[i].rowid == rowid && s'.inbox[i].skip;
      }
    }
  }

  lemma {:induction false} RunKeepsPassed(s: State, steps: seq<Step>)
    requires PassedAreDecided(s)
    ensures PassedAreDecided(Run(s, steps))
    decreases |steps|
  {
    if steps != [] {
      StepKeepsPassed(s, steps[0]);
      RunKeepsPassed(Next(s, steps[0]), steps[1..]);
    }
  }

  /** Over every run, a request the saved cursor has passed since the first start was printed or is decided. */
  lemma NoWaitingRequestIsPassed(chat: seq<Row>, inbox: seq<Row>, fromStart: bool, steps: seq<Step>, row: Row)
    requires Ordered(chat) && Ordered(inbox)
    ensures var s := Run(Fresh(chat, inbox, fromStart), steps);
            s.file.Some? && row in s.inbox && s.begin.inbox < row.rowid <= s.file.value.inbox && !row.skip
            ==> exists i :: 0 <= i < |s.log| && s.log[i].event == Event(Inbox, row.rowid)
  {
    var s := Run(Fresh(chat, inbox, fromStart), steps);
    AtLeastOnce(chat, inbox, fromStart, steps);
    RunKeepsPassed(Fresh(chat, inbox, fromStart), steps);
    FreshOk(chat, inbox, fromStart);
    RunKeeps(Fresh(chat, inbox, fromStart), steps);
    assert RestOk(s, Inbox);
    if s.file.Some? && row in s.inbox && s.begin.inbox < row.rowid <= s.file.value.inbox && !row.skip {
      assert DealtWith(Inbox, s.Feed(Inbox), s.begin.At(Inbox), s.log, s.passed, s.file.value.At(Inbox));
      if row.rowid in s.passed {
        var i :| 0 <= i < |s.inbox| && s.inbox[i].rowid == row.rowid && s.inbox[i].skip;
        SameRowid(s.inbox, s.inbox[i], row);
      }
    }
  }

  /** The line of cursors begins where the run that saved the first one began. */
  lemma BeginIsTheFirstStart(s: State, step: Step)
    ensures step != Start || s.phase != Idle || s.file.Some? ==> Next(s, step).begin == s.begin
    ensures step == Start && s.phase == Idle && s.file.None? ==>
              Next(s, step).begin == InitialCursor(s.fromStart, s.inbox, s.inbox, s.chat)
  {
  }

  lemma {:induction false} FromStartBeginsAtNothing(s: State, steps: seq<Step>)
    requires s.fromStart && s.begin == Cursor(0, 0)
    ensures Run(s, steps).fromStart && Run(s, steps).begin == Cursor(0, 0)
    decreases |steps|
  {
    if steps != [] {
      BeginIsTheFirstStart(s, steps[0]);
      FromStartBeginsAtNothing(Next(s, steps[0]), steps[1..]);
    }
  }

  /** With `--from-start`, over every run, everything up to the saved cursor was dealt with: every message printed or
      the node's own, every request printed or decided. */
  lemma FromStartMissesNothing(chat: seq<Row>, inbox: seq<Row>, steps: seq<Step>, row: Row)
    requires Ordered(chat) && Ordered(inbox)
    ensures var s := Run(Fresh(chat, inbox, true), steps);
            s.file.Some? && !row.skip ==>
              && (row in s.chat && row.rowid <= s.file.value.chat ==>
                    exists i :: 0 <= i < |s.log| && s.log[i].event == Event(Chat, row.rowid))
              && (row in s.inbox && row.rowid <= s.file.value.inbox ==>
                    exists i :: 0 <= i < |s.log| && s.log[i].event == Event(Inbox, row.rowid))
  {
    var s := Run(Fresh(chat, inbox, true), steps);
    FreshOk(chat, inbox, true);
    RunKeeps(Fresh(chat, inbox, true), steps);
    FromStartBeginsAtNothing(Fresh(chat, inbox, true), steps);
    AtLeastOnce(chat, inbox, true, steps);
    NoWaitingRequestIsPassed(chat, inbox, true, steps, row);
    assert RestOk(s, Chat) && RestOk(s, Inbox);
    RowsUpToMax(s.chat);
    RowsUpToMax(s.inbox);
    if s.file.Some? {
      assert DealtWith(Chat, s.Feed(Chat), s.begin.At(Chat), s.log, s.passed, s.file.value.At(Chat));
    }
  }
}
