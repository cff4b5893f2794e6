/** When interleaved answers leave the inbox and the cache in step: exactly as long as no request is asked
    again, no answer overwrites another, none is lost halfway, and nobody clears the cache. */
module AnswerRaces {
  import opened AuthTypes
  import opened AuthTables
  import opened Fingerprint
  import opened Tiers
  import opened Chain
  import opened Answers
  import opened Runs

  // ----- the invariant -----

  /** Some answer in progress will cache the row's decision. */
  predicate Answering(row: InboxRow, sessions: map<nat, Session>)
    requires IsStatement(row) && row.decision.Some?
  {
    exists n :: n in sessions && Record(KeyOfRow(row), Entry(row.id, row.decision.value)) in sessions[n].rest
  }

  /** Pending and not cached; or decided and cached alike; or decided and about to be cached. */
  predicate RowInStep(row: InboxRow, node: Node)
    requires IsStatement(row)
  {
    match row.decision
    case None => KeyOfRow(row) !in node.tables.decisions
    case Some(decision) =>
      && decision in {"allow", "deny"}
      && if KeyOfRow(row) in node.tables.decisions then node.tables.decisions[KeyOfRow(row)] == Entry(row.id, decision)
         else Answering(row, node.sessions)
  }

  /** A session that marked its row and will cache its verdict finds the row as it marked it. */
  predicate Agrees(s: Session, inbox: seq<InboxRow>) {
    s.Marked() && s.WillRecord() ==> s.row.(decision := Some(s.decision)) in inbox
  }

  ghost predicate RowsInStep(node: Node) {
    forall row :: row in node.tables.inbox && IsStatement(row) ==> RowInStep(row, node)
  }

  ghost predicate SessionsInStep(node: Node) {
    forall n :: n in node.sessions ==> Agrees(node.sessions[n], node.tables.inbox)
  }

  ghost predicate InStep(node: Node) {
    Sound(node) && OneRowPerKey(node.tables.inbox) && RowsInStep(node) && SessionsInStep(node)
  }

  /** Rows are never dropped or rewritten, only decided, and decided once. */
  predicate Later(row: InboxRow, row': InboxRow) {
    row' == row || (row.decision.None? && row' == row.(decision := row'.decision))
  }

  /** Nothing decided or cached before is different now. */
  ghost predicate Extends(before: Tables, after: Tables) {
    && |before.inbox| <= |after.inbox|
    && (forall i :: 0 <= i < |before.inbox| ==> Later(before.inbox[i], after.inbox[i]))
    && (forall key :: key in before.decisions ==> key in after.decisions && after.decisions[key] == before.decisions[key])
  }

  // ----- the events that disturb it -----

  /** The next statement marks a row decided otherwise: the `UPDATE` does not check that it is still pending. */
  predicate Overwrites(node: Node, n: nat) {
    && n in node.sessions && node.sessions[n].rest != [] && node.sessions[n].rest[0].Mark?
    && exists row :: row in node.tables.inbox && row.id == node.sessions[n].rest[0].id
         && row.decision.Some? && row.decision.value != node.sessions[n].rest[0].decision
  }

  /** The session stops between its mark and its cache entry, and no other will make that entry. */
  predicate LosesAnswer(node: Node, n: nat) {
    exists row :: row in node.tables.inbox && IsStatement(row) && row.decision.Some?
      && KeyOfRow(row) !in node.tables.decisions && !Answering(row, node.sessions - {n})
  }

  predicate Disturbs(node: Node, event: Event) {
    match event
    case Ask(request, env) => AskedAgain(node.tables, request, env)
    case ParkKnock(_, _, _) => false
    case Open(_, _, _, _, _, _) => false
    case Proceed(n) => Overwrites(node, n)
    case Stop(n) => LosesAnswer(node, n)
    case Invalidate => node.tables.decisions != map[]
  }

  /** An answer is lost with its session exactly when that session marked its row, has not cached its verdict yet,
      nothing else is cached for the row, and no other session has the same entry to write. */
  lemma LosesAnswerMeans(node: Node, n: nat)
    requires InStep(node)
    ensures LosesAnswer(node, n) <==> LeavesUncached(node, n)
  {
    if LosesAnswer(node, n) {
      var row :| row in node.tables.inbox && IsStatement(row) && row.decision.Some?
                 && KeyOfRow(row) !in node.tables.decisions && !Answering(row, node.sessions - {n});
      LostRowIsItsOwn(node, n, row);
    }
    if LeavesUncached(node, n) {
      LeftUncachedIsLost(node, n);
    }
  }

  predicate LeavesUncached(node: Node, n: nat) {
    n in node.sessions && node.sessions[n].WillRecord()
    && var s := node.sessions[n];
       && s.row.(decision := Some(s.decision)) in node.tables.inbox
       && KeyOfRow(s.row) !in node.tables.decisions
       && forall m :: m in node.sessions && m != n ==>
            Record(KeyOfRow(s.row), Entry(s.row.id, s.decision)) !in node.sessions[m].rest
  }

  lemma LostRowIsItsOwn(node: Node, n: nat, row: InboxRow)
    requires InStep(node) && row in node.tables.inbox && IsStatement(row) && row.decision.Some?
    requires KeyOfRow(row) !in node.tables.decisions && !Answering(row, node.sessions - {n})
    ensures LeavesUncached(node, n)
  {
    assert RowInStep(row, node);
    var record := Record(KeyOfRow(row), Entry(row.id, row.decision.value));
    forall k | k in node.sessions && k != n ensures record !in node.sessions[k].rest {
      assert (node.sessions - {n})[k] == node.sessions[k];
    }
    var m :| m in node.sessions && record in node.sessions[m].rest;
    RecordNamesItsRow(node, m, row, record);
  }

  /** A session that has a row's cache entry to write read that very row. */
  lemma RecordNamesItsRow(node: Node, n: nat, row: InboxRow, record: Statement)
    requires Sound(node) && OneRowPerKey(node.tables.inbox) && row in node.tables.inbox && IsStatement(row) && row.decision.Some?
    requires record == Record(KeyOfRow(row), Entry(row.id, row.decision.value))
    requires n in node.sessions && record in node.sessions[n].rest
    ensures var s := node.sessions[n];
            s.WillRecord() && row == s.row.(decision := Some(s.decision))
            && record == Record(KeyOfRow(s.row), Entry(s.row.id, s.decision))
  {
    var s := node.sessions[n];
    assert SessionOk(s, node.tables.inbox);
    var i :| 0 <= i < |s.rest| && s.rest[i] == record;
    assert StepOk(s, s.rest[i]);
    var read :| read in node.tables.inbox && SameRow(read, s.row);
    assert KeyOfRow(read) == KeyOfRow(row);
    SameId(node.tables.inbox, read, row);
  }

  lemma LeftUncachedIsLost(node: Node, n: nat)
    requires LeavesUncached(node, n)
    ensures LosesAnswer(node, n)
  {
    var s := node.sessions[n];
    var row := s.row.(decision := Some(s.decision));
    assert IsStatement(row) && KeyOfRow(row) == KeyOfRow(s.row);
    assert !Answering(row, node.sessions - {n});
  }

  // ----- appended rows -----

  lemma AppendInStep(node: Node, row: InboxRow)
    requires InStep(node) && !UsesId(node.tables.inbox, row.id) && (row.sql != "" ==> IsStatement(row)) && row.decision.None?
    requires IsStatement(row) ==> !KeyHasRow(node.tables.inbox, KeyOfRow(row))
    ensures InStep(Appended(node, row)) && Extends(node.tables, Appended(node, row).tables)
  {
    AppendSound(node, row);
    AppendOneRow(node.tables.inbox, row);
    var inbox' := Appended(node, row).tables.inbox;
    assert forall r :: r in inbox' <==> r in node.tables.inbox || r == row;
    if IsStatement(row) {
      assert KeyOfRow(row) !in node.tables.decisions;
    }
    forall r | r in inbox' && IsStatement(r) ensures RowInStep(r, Appended(node, row)) {
      assert r != row ==> RowInStep(r, node);
    }
    forall n | n in node.sessions ensures Agrees(node.sessions[n], inbox') {
      assert Agrees(node.sessions[n], node.tables.inbox);
    }
  }

  lemma AskStep(node: Node, request: Request, env: Env)
    requires InStep(node)
    ensures var node' := Next(node, Ask(request, env));
            (InStep(node') && Extends(node.tables, node'.tables)) <==> !AskedAgain(node.tables, request, env)
  {
    ReplyParks(node.tables, request, env);
    AskOneRow(node.tables, request, env);
    if Parks(node.tables, request, env) && !AskedAgain(node.tables, request, env) {
      AppendInStep(node, ParkedRow(request, env.freshId));
    }
  }

  lemma KnockStep(node: Node, peer: string, id: string, message: string)
    requires InStep(node)
    ensures var node' := Next(node, ParkKnock(peer, id, message));
            InStep(node') && Extends(node.tables, node'.tables)
  {
    if Next(node, ParkKnock(peer, id, message)) != node {
      AppendInStep(node, InboxRow(id, peer, "", NotJson("knock: " + message), None));
    }
  }

  // ----- sessions opened and stopped -----

  lemma StillAnswering(row: InboxRow, sessions: map<nat, Session>, sessions': map<nat, Session>)
    requires IsStatement(row) && row.decision.Some? && Answering(row, sessions)
    requires forall n :: n in sessions ==> n in sessions' && sessions'[n] == sessions[n]
    ensures Answering(row, sessions')
  {
  }

  lemma OpenedRows(node: Node, n: nat, s: Session)
    requires RowsInStep(node) && n !in node.sessions
    ensures RowsInStep(node.(sessions := node.sessions[n := s]))
  {
    var node' := node.(sessions := node.sessions[n := s]);
    forall row | row in node.tables.inbox && IsStatement(row) ensures RowInStep(row, node') {
      assert RowInStep(row, node);
      if row.decision.Some? && Answering(row, node.sessions) {
        StillAnswering(row, node.sessions, node'.sessions);
      }
    }
  }

  /** More sessions only help; an opened one has not marked its row. */
  lemma OpenStep(node: Node, event: Event)
    requires InStep(node) && event.Open?
    ensures InStep(Next(node, event)) && Next(node, event).tables == node.tables
  {
    var node' := Next(node, event);
    if node' != node {
      NextSound(node, event);
      PlanOk(event.path, node.tables, event.id, event.allow, event.remember, event.grants);
      OpenedRows(node, event.session, node'.sessions[event.session]);
      forall n | n in node'.sessions ensures Agrees(node'.sessions[n], node.tables.inbox) {
        assert n in node.sessions ==> Agrees(node.sessions[n], node.tables.inbox);
      }
    }
  }

  lemma StopStep(node: Node, n: nat)
    requires InStep(node)
    ensures InStep(Next(node, Stop(n))) <==> !LosesAnswer(node, n)
    ensures Next(node, Stop(n)).tables == node.tables
  {
    var node' := Next(node, Stop(n));
    NextSound(node, Stop(n));
    forall row | row in node.tables.inbox && IsStatement(row)
      ensures RowInStep(row, node') <==>
              !(row.decision.Some? && KeyOfRow(row) !in node.tables.decisions && !Answering(row, node.sessions - {n}))
    {
      assert RowInStep(row, node);
    }
    forall m | m in node'.sessions ensures Agrees(node'.sessions[m], node.tables.inbox) {
      assert Agrees(node.sessions[m], node.tables.inbox);
    }
  }

  lemma InvalidateStep(node: Node)
    requires InStep(node)
    ensures var node' := Next(node, Invalidate);
            (InStep(node') && Extends(node.tables, node'.tables)) <==> node.tables.decisions == map[]
  {
    if node.tables.decisions != map[] {
      var key :| key in node.tables.decisions;
      assert key !in Next(node, Invalidate).tables.decisions;
    }
  }

  // ----- statements -----

  /** A statement other than the row's own cache entry leaves its session answering. */
  lemma StillAnsweringAfter(row: InboxRow, sessions: map<nat, Session>, n: nat)
    requires IsStatement(row) && row.decision.Some? && Answering(row, sessions)
    requires n in sessions && sessions[n].rest != []
    requires sessions[n].rest[0] != Record(KeyOfRow(row), Entry(row.id, row.decision.value))
    ensures Answering(row, sessions[n := Advanced(sessions[n])])
  {
    var statement := Record(KeyOfRow(row), Entry(row.id, row.decision.value));
    var m :| m in sessions && statement in sessions[m].rest;
    var sessions' := sessions[n := Advanced(sessions[n])];
    if m == n {
      assert sessions[n].rest == [sessions[n].rest[0]] + sessions[n].rest[1..];
      assert statement in sessions'[n].rest;
    } else {
      assert statement in sessions'[m].rest;
    }
  }

  lemma SameInboxAndCache(before: Tables, after: Tables)
    requires after.inbox == before.inbox && after.decisions == before.decisions
    ensures Extends(before, after)
  {
  }

  /** A session's next statement, when it does not mark, leaves every session agreeing. */
  lemma AgreesAfter(node: Node, n: nat)
    requires SessionsInStep(node) && n in node.sessions && node.sessions[n].rest != []
    requires SessionOk(node.sessions[n], node.tables.inbox) && !node.sessions[n].rest[0].Mark?
    ensures SessionsInStep(Next(node, Proceed(n)))
  {
    var node' := Next(node, Proceed(n));
    AdvancedOk(node.sessions[n], node.tables.inbox);
    assert Executed(node.tables, node.sessions[n].rest[0]).inbox == node.tables.inbox;
    forall m | m in node'.sessions ensures Agrees(node'.sessions[m], node.tables.inbox) {
      assert Agrees(node.sessions[m], node.tables.inbox);
    }
  }

  lemma RuleRows(node: Node, n: nat)
    requires RowsInStep(node) && n in node.sessions && node.sessions[n].rest != []
    requires !node.sessions[n].rest[0].Mark? && !node.sessions[n].rest[0].Record?
    ensures RowsInStep(Next(node, Proceed(n)))
    ensures Extends(node.tables, Next(node, Proceed(n)).tables)
    ensures Next(node, Proceed(n)).tables.inbox == node.tables.inbox
  {
    var node' := Next(node, Proceed(n));
    SameInboxAndCache(node.tables, node'.tables);
    forall row | row in node.tables.inbox && IsStatement(row) ensures RowInStep(row, node') {
      assert RowInStep(row, node);
      if row.decision.Some? && Answering(row, node.sessions) {
        StillAnsweringAfter(row, node.sessions, n);
      }
    }
  }

  /** Rules and admissions leave inbox and cache alone. */
  lemma RuleStep(node: Node, n: nat)
    requires InStep(node) && n in node.sessions && node.sessions[n].rest != []
    requires !node.sessions[n].rest[0].Mark? && !node.sessions[n].rest[0].Record?
    ensures InStep(Next(node, Proceed(n))) && Extends(node.tables, Next(node, Proceed(n)).tables)
  {
    ProceedSound(node, n);
    AgreesAfter(node, n);
    RuleRows(node, n);
  }

  /** The row whose decision a session is about to cache. */
  predicate AboutToRecord(node: Node, n: nat, mine: InboxRow) {
    && n in node.sessions && node.sessions[n].rest != []
    && mine in node.tables.inbox && IsStatement(mine) && mine.decision.Some?
    && node.sessions[n].rest[0] == Record(KeyOfRow(mine), Entry(mine.id, mine.decision.value))
  }

  lemma RecordRows(node: Node, n: nat, mine: InboxRow)
    requires RowsInStep(node) && DistinctIds(node.tables.inbox) && OneRowPerKey(node.tables.inbox)
    requires AboutToRecord(node, n, mine)
    ensures RowsInStep(Next(node, Proceed(n)))
    ensures Extends(node.tables, Next(node, Proceed(n)).tables)
    ensures Next(node, Proceed(n)).tables.inbox == node.tables.inbox
  {
    var node' := Next(node, Proceed(n));
    assert RowInStep(mine, node);
    forall row | row in node.tables.inbox && IsStatement(row) ensures RowInStep(row, node') {
      assert RowInStep(row, node);
      if KeyOfRow(row) == KeyOfRow(mine) {
        SameId(node.tables.inbox, row, mine);
      } else if row.decision.Some? && Answering(row, node.sessions) {
        StillAnsweringAfter(row, node.sessions, n);
      }
    }
  }

  /** The cache entry of a marked row. */
  lemma RecordStep(node: Node, n: nat)
    requires InStep(node) && n in node.sessions && node.sessions[n].rest != [] && node.sessions[n].rest[0].Record?
    ensures InStep(Next(node, Proceed(n))) && Extends(node.tables, Next(node, Proceed(n)).tables)
  {
    var s := node.sessions[n];
    var mine := s.row.(decision := Some(s.decision));
    assert AboutToRecord(node, n, mine) by {
      assert SessionOk(s, node.tables.inbox) && StepOk(s, s.rest[0]) && s.rest[0] in s.rest && Agrees(s, node.tables.inbox);
    }
    ProceedSound(node, n);
    AgreesAfter(node, n);
    RecordRows(node, n, mine);
  }

  /** The row a session is about to mark, pending or already marked alike. */
  predicate AboutToMark(node: Node, n: nat, read: InboxRow) {
    && n in node.sessions && node.sessions[n].rest != [] && DistinctIds(node.tables.inbox)
    && read in node.tables.inbox && SameRow(read, node.sessions[n].row)
    && (read.decision.None? || read.decision.value == node.sessions[n].decision)
    && node.sessions[n].rest[0] == Mark(read.id, node.sessions[n].decision)
  }

  lemma ReadRow(node: Node, n: nat) returns (read: InboxRow)
    requires Sound(node) && n in node.sessions && !node.sessions[n].Marked() && !Overwrites(node, n)
    ensures AboutToMark(node, n, read)
  {
    var s := node.sessions[n];
    assert SessionOk(s, node.tables.inbox) && StepOk(s, s.rest[0]);
    read :| read in node.tables.inbox && SameRow(read, s.row);
  }

  lemma MarkedRowInStep(node: Node, n: nat, read: InboxRow, row: InboxRow)
    requires AboutToMark(node, n, read) && SessionOk(node.sessions[n], node.tables.inbox)
    requires row in node.tables.inbox && IsStatement(row) && RowInStep(row, node)
    ensures RowInStep(MarkedRow(row, read.id, node.sessions[n].decision), Next(node, Proceed(n)))
  {
    var s := node.sessions[n];
    if row.id == read.id {
      SameId(node.tables.inbox, row, read);
    }
    if row.decision.None? && row.id == read.id {
      AdvancedOk(s, node.tables.inbox);
      assert Record(KeyOfRow(row), Entry(row.id, s.decision)) in Next(node, Proceed(n)).sessions[n].rest;
    } else if row.decision.Some? && Answering(row, node.sessions) {
      StillAnsweringAfter(row, node.sessions, n);
    }
  }

  lemma MarkRows(node: Node, n: nat, read: InboxRow)
    requires AboutToMark(node, n, read) && SessionOk(node.sessions[n], node.tables.inbox) && RowsInStep(node)
    ensures RowsInStep(Next(node, Proceed(n)))
  {
    var s, node' := node.sessions[n], Next(node, Proceed(n));
    var inbox, inbox' := node.tables.inbox, node'.tables.inbox;
    forall row' | row' in inbox' && IsStatement(row') ensures RowInStep(row', node') {
      var i :| 0 <= i < |inbox'| && inbox'[i] == row';
      assert inbox[i] in inbox && row' == MarkedRow(inbox[i], read.id, s.decision);
      MarkedRowInStep(node, n, read, inbox[i]);
    }
  }

  /** A row found as it was marked is found so after an equal mark. */
  lemma StillAgrees(t: Session, inbox: seq<InboxRow>, read: InboxRow, decision: string)
    requires DistinctIds(inbox) && read in inbox && (read.decision.None? || read.decision.value == decision)
    requires Agrees(t, inbox)
    ensures Agrees(t, MarkDecided(inbox, read.id, decision))
  {
    if t.Marked() && t.WillRecord() {
      var marked := t.row.(decision := Some(t.decision));
      if marked.id == read.id {
        SameId(inbox, marked, read);
      }
      var i :| 0 <= i < |inbox| && inbox[i] == marked;
      assert MarkDecided(inbox, read.id, decision)[i] == marked;
    }
  }

  lemma MarkSessions(node: Node, n: nat, read: InboxRow)
    requires AboutToMark(node, n, read) && SessionsInStep(node)
    ensures SessionsInStep(Next(node, Proceed(n)))
  {
    var s, node' := node.sessions[n], Next(node, Proceed(n));
    var inbox := node.tables.inbox;
    assert node'.tables.inbox == MarkDecided(inbox, read.id, s.decision);
    forall m | m in node'.sessions ensures Agrees(node'.sessions[m], node'.tables.inbox) {
      if m == n {
        var i :| 0 <= i < |inbox| && inbox[i] == read;
        assert node'.tables.inbox[i] == s.row.(decision := Some(s.decision));
      } else {
        StillAgrees(node.sessions[m], inbox, read, s.decision);
      }
    }
  }

  lemma MarkExtends(tables: Tables, read: InboxRow, decision: string)
    requires DistinctIds(tables.inbox) && read in tables.inbox && (read.decision.None? || read.decision.value == decision)
    ensures Extends(tables, Executed(tables, Mark(read.id, decision)))
  {
    forall i | 0 <= i < |tables.inbox|
      ensures Later(tables.inbox[i], MarkDecided(tables.inbox, read.id, decision)[i])
    {
      if tables.inbox[i].id == read.id {
        SameId(tables.inbox, tables.inbox[i], read);
      }
    }
  }

  lemma MarkStep(node: Node, n: nat)
    requires InStep(node) && n in node.sessions && !node.sessions[n].Marked() && !Overwrites(node, n)
    ensures InStep(Next(node, Proceed(n))) && Extends(node.tables, Next(node, Proceed(n)).tables)
  {
    var read := ReadRow(node, n);
    var decision, node' := node.sessions[n].decision, Next(node, Proceed(n));
    assert node'.tables == Executed(node.tables, Mark(read.id, decision));
    assert Sound(node') by {
      ProceedSound(node, n);
    }
    assert OneRowPerKey(node'.tables.inbox) by {
      MarkOneRow(node.tables.inbox, read.id, decision);
    }
    assert RowsInStep(node') by {
      MarkRows(node, n, read);
    }
    assert SessionsInStep(node') by {
      MarkSessions(node, n, read);
    }
    MarkExtends(node.tables, read, decision);
  }

  lemma OverwriteDisturbs(node: Node, n: nat)
    requires Overwrites(node, n)
    ensures !Extends(node.tables, Next(node, Proceed(n)).tables)
  {
    var mark, inbox := node.sessions[n].rest[0], node.tables.inbox;
    var row :| row in inbox && row.id == mark.id && row.decision.Some? && row.decision.value != mark.decision;
    var i :| 0 <= i < |inbox| && inbox[i] == row;
    assert Next(node, Proceed(n)).tables.inbox[i] == row.(decision := Some(mark.decision));
    assert !Later(inbox[i], Next(node, Proceed(n)).tables.inbox[i]);
  }

  lemma ProceedStep(node: Node, n: nat)
    requires InStep(node)
    ensures var node' := Next(node, Proceed(n));
            (InStep(node') && Extends(node.tables, node'.tables)) <==> !Overwrites(node, n)
  {
    if Overwrites(node, n) {
      OverwriteDisturbs(node, n);
    } else if n in node.sessions && node.sessions[n].rest != [] {
      if node.sessions[n].rest[0].Mark? {
        MarkStep(node, n);
      } else if node.sessions[n].rest[0].Record? {
        RecordStep(node, n);
      } else {
        RuleStep(node, n);
      }
    }
  }

  // ----- runs -----

  /** One event keeps rows and cache in step, and nothing decided or cached changes, unless it is one of those named. */
  lemma StepStaysInStep(node: Node, event: Event)
    requires InStep(node)
    ensures (InStep(Next(node, event)) && Extends(node.tables, Next(node, event).tables)) <==> !Disturbs(node, event)
  {
    match event
    case Ask(request, env) => AskStep(node, request, env);
    case ParkKnock(peer, id, message) => KnockStep(node, peer, id, message);
    case Open(_, _, _, _, _, _) => OpenStep(node, event);
    case Proceed(n) => ProceedStep(node, n);
    case Stop(n) => StopStep(node, n);
    case Invalidate => InvalidateStep(node);
  }

  /** In step all along, with nothing decided or cached ever changed. */
  ghost predicate StaysInStep(node: Node, events: seq<Event>)
    decreases |events|
  {
    && InStep(node)
    && (events != [] ==>
          var node' := Next(node, events[0]);
          Extends(node.tables, node'.tables) && StaysInStep(node', events[1..]))
  }

  ghost predicate Undisturbed(node: Node, events: seq<Event>)
    decreases |events|
  {
    events == [] || (!Disturbs(node, events[0]) && Undisturbed(Next(node, events[0]), events[1..]))
  }

  lemma {:induction false} RunStaysInStep(node: Node, events: seq<Event>)
    requires InStep(node)
    ensures StaysInStep(node, events) <==> Undisturbed(node, events)
    decreases |events|
  {
    if events != [] {
      StepStaysInStep(node, events[0]);
      var node' := Next(node, events[0]);
      if InStep(node') {
        RunStaysInStep(node', events[1..]);
      }
    }
  }

  /** Over every interleaving of requests, knocks and the statements of any number of answers: inbox and cache
      stay in step, each row decided once and each entry written once, exactly when no event disturbs them. */
  lemma EveryRunStaysInStep(events: seq<Event>)
    ensures StaysInStep(FRESH, events) <==> Undisturbed(FRESH, events)
  {
    RunStaysInStep(FRESH, events);
  }

  // ----- between answers -----

  predicate Quiet(node: Node) {
    forall n :: n in node.sessions ==> node.sessions[n].rest == []
  }

  /** When no answer is in progress, in step means: one row a shape, pending exactly while the cache lacks its
      key, and cached as decided. */
  lemma QuietMeansCoherent(node: Node)
    requires Sound(node) && Quiet(node)
    ensures InStep(node) <==> Coherent(node.tables)
  {
    forall row | row in node.tables.inbox && IsStatement(row)
      ensures RowInStep(row, node) <==> Settled(row, node.tables.decisions)
    {
    }
  }

  lemma {:induction false} UndisturbedEndsInStep(node: Node, events: seq<Event>)
    requires InStep(node) && Undisturbed(node, events)
    ensures InStep(Run(node, events))
    decreases |events|
  {
    if events != [] {
      StepStaysInStep(node, events[0]);
      UndisturbedEndsInStep(Next(node, events[0]), events[1..]);
    }
  }

  /** However its answers interleaved, an undisturbed run is coherent whenever none is in progress. */
  lemma UndisturbedRunIsCoherent(events: seq<Event>)
    requires Undisturbed(FRESH, events) && Quiet(Run(FRESH, events))
    ensures Coherent(Run(FRESH, events).tables)
  {
    UndisturbedEndsInStep(FRESH, events);
    QuietMeansCoherent(Run(FRESH, events));
  }

  /** While answers are in progress the tables fall short of that only in rows on their way to the cache. */
  lemma InStepMeansCoherentExceptOnTheWay(node: Node)
    requires InStep(node)
    ensures Coherent(node.tables) <==>
            forall row :: row in node.tables.inbox && IsStatement(row) && row.decision.Some? ==> KeyOfRow(row) in node.tables.decisions
  {
    forall row | row in node.tables.inbox && IsStatement(row)
      ensures Settled(row, node.tables.decisions) <==> (row.decision.Some? ==> KeyOfRow(row) in node.tables.decisions)
    {
      assert RowInStep(row, node);
    }
  }

  // ----- what the invariant means for requests -----

  function Outcome(id: string, decision: string): Decision {
    if decision == "allow" then Allow else Deny("answered from _inbox " + id)
  }

  /** A request is asked again exactly when the row of its shape is decided and either its answer is still on
      the way to the cache or the cache cannot be read. */
  lemma AskedAgainMeans(node: Node, request: Request, env: Env)
    requires InStep(node)
    ensures AskedAgain(node.tables, request, env) <==>
            && Parkable(request) && env.humanFault == Healthy && !UsesId(node.tables.inbox, env.freshId)
            && exists row :: row in node.tables.inbox && ParkedAs(row, request.peer, KeyOf(request)) && row.decision.Some?
                 && (env.cacheFails || ((request.peer, KeyOf(request)) !in node.tables.decisions && Answering(row, node.sessions)))
  {
    var key, inbox := (request.peer, KeyOf(request)), node.tables.inbox;
    forall row | row in inbox ensures ParkedAs(row, request.peer, KeyOf(request)) <==> IsStatement(row) && KeyOfRow(row) == key {
    }
    if KeyHasRow(inbox, key) {
      var mine :| mine in inbox && IsStatement(mine) && KeyOfRow(mine) == key;
      assert RowInStep(mine, node);
      assert HasPending(inbox, request.peer, KeyOf(request)) <==> mine.decision.None? by {
        OnlyRow(inbox, mine, request);
      }
    }
  }

  /** In every run, in step or not: a request is asked again exactly when no row of its shape is pending, one is
      decided, and the cache lacks its answer or cannot be read. It lacks it while the answer is on its way, after
      an answer that stopped halfway, and after the cache was cleared. */
  lemma AskedAgainInEveryRun(events: seq<Event>, request: Request, env: Env)
    ensures var node := Run(FRESH, events);
            var key := (request.peer, KeyOf(request));
            AskedAgain(node.tables, request, env) <==>
            && Parkable(request) && env.humanFault == Healthy && !UsesId(node.tables.inbox, env.freshId)
            && !HasPending(node.tables.inbox, request.peer, KeyOf(request))
            && (exists row :: row in node.tables.inbox && ParkedAs(row, request.peer, KeyOf(request)) && row.decision.Some?)
            && (env.cacheFails || key !in node.tables.decisions)
  {
    var node, key := Run(FRESH, events), (request.peer, KeyOf(request));
    forall row | row in node.tables.inbox
      ensures ParkedAs(row, request.peer, KeyOf(request)) <==> IsStatement(row) && KeyOfRow(row) == key
    {
    }
  }

  /** The one row of a shape is the one that can be pending. */
  lemma OnlyRow(inbox: seq<InboxRow>, mine: InboxRow, request: Request)
    requires DistinctIds(inbox) && OneRowPerKey(inbox) && mine in inbox && IsStatement(mine)
    requires KeyOfRow(mine) == (request.peer, KeyOf(request))
    ensures HasPending(inbox, request.peer, KeyOf(request)) <==> mine.decision.None?
  {
    if HasPending(inbox, request.peer, KeyOf(request)) {
      var row :| row in inbox && row.decision.None? && ParkedAs(row, request.peer, KeyOf(request));
      SameId(inbox, row, mine);
    }
  }

  /** An answered shape: its row is decided and its decision cached. */
  predicate AnsweredAs(tables: Tables, request: Request, id: string, decision: string) {
    && (request.peer, KeyOf(request)) in tables.decisions
    && tables.decisions[(request.peer, KeyOf(request))] == Entry(id, decision)
    && decision in {"allow", "deny"}
  }

  /** It is served from the cache, and nothing is written, whenever the cache can be read. */
  lemma AnsweredReply(tables: Tables, request: Request, env: Env, id: string, decision: string)
    requires AnsweredAs(tables, request, id, decision)
    requires request.action != "knock" && !request.footprint.HasDenied() && !env.cacheFails
    ensures Reply(tables, request, env) == (tables, Decided(Outcome(id, decision), "cache"))
  {
    ReplyUnfolds(tables, request, env);
  }

  lemma {:induction false} RunKeepsEntry(node: Node, events: seq<Event>, key: DecisionKey)
    requires InStep(node) && Undisturbed(node, events) && key in node.tables.decisions
    ensures key in Run(node, events).tables.decisions
    ensures Run(node, events).tables.decisions[key] == node.tables.decisions[key]
    decreases |events|
  {
    if events != [] {
      StepStaysInStep(node, events[0]);
      RunKeepsEntry(Next(node, events[0]), events[1..], key);
    }
  }

  /** Once the answer of a shape is in the cache, then after any undisturbed run, with other answers still in
      progress or not, every request of that peer and shape gets it from there and leaves the tables alone. */
  lemma AnswerIsFinal(node: Node, events: seq<Event>, id: string, decision: string, request: Request, env: Env)
    requires InStep(node) && Undisturbed(node, events) && AnsweredAs(node.tables, request, id, decision)
    requires request.action != "knock" && !request.footprint.HasDenied() && !env.cacheFails
    ensures var later := Run(node, events).tables;
            Reply(later, request, env) == (later, Decided(Outcome(id, decision), "cache"))
  {
    RunKeepsEntry(node, events, (request.peer, KeyOf(request)));
    AnsweredReply(Run(node, events).tables, request, env, id, decision);
  }

  /** Until a shape is answered the owner is asked exactly once: its request is parked, or already is, and
      answered pending. */
  lemma PendingUntilAnswered(node: Node, request: Request, env: Env)
    requires InStep(node) && Parkable(request) && env.humanFault == Healthy && !UsesId(node.tables.inbox, env.freshId)
    requires (request.peer, KeyOf(request)) !in node.tables.decisions && !AskedAgain(node.tables, request, env)
    ensures var (after, decided) := Reply(node.tables, request, env);
            && decided == Decided(Deny(PENDING_REASON), "human")
            && HasPending(after.inbox, request.peer, KeyOf(request))
            && after == if HasPending(node.tables.inbox, request.peer, KeyOf(request)) then node.tables
                        else node.tables.(inbox := node.tables.inbox + [ParkedRow(request, env.freshId)])
  {
    ReplyUnfolds(node.tables, request, env);
    ReplyParks(node.tables, request, env);
    LookUpReadable(node.tables.inbox, request.peer, KeyOf(request));
    if !HasPending(node.tables.inbox, request.peer, KeyOf(request)) {
      assert ParkedRow(request, env.freshId) in Reply(node.tables, request, env).0.inbox;
    }
  }
}
