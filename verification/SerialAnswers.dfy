/** Answers begun one at a time on a row never overwrite one another, and what they leave in step is then an
    equivalence; answers that race do overwrite. */
module SerialAnswers {
  import opened AuthTypes
  import opened AuthTables
  import opened Fingerprint
  import opened Tiers
  import opened Chain
  import opened Answers
  import opened Runs
  import opened AnswerRaces

  // ----- answers one at a time -----

  function Repeated(event: Event, k: nat): (events: seq<Event>)
    ensures |events| == k
  {
    if k == 0 then [] else [event] + Repeated(event, k - 1)
  }

  lemma {:induction false} ProceedToTheEnd(node: Node, n: nat)
    requires n in node.sessions
    ensures Run(node, Repeated(Proceed(n), |node.sessions[n].rest|)).tables == ExecutedAll(node.tables, node.sessions[n].rest)
    decreases |node.sessions[n].rest|
  {
    var rest := node.sessions[n].rest;
    if rest != [] {
      var events := Repeated(Proceed(n), |rest|);
      assert events[0] == Proceed(n) && events[1..] == Repeated(Proceed(n), |rest| - 1);
      var node' := Next(node, Proceed(n));
      assert node'.sessions[n].rest == rest[1..] && node'.tables == Executed(node.tables, rest[0]);
      ProceedToTheEnd(node', n);
    }
  }

  /** An answer nothing interrupts does what the answer flows do as a whole. */
  lemma UninterruptedAnswer(node: Node, n: nat, path: Path, id: string, allow: bool, remember: bool, grants: seq<string>)
    requires n !in node.sessions
    ensures var plan := Plan(path, node.tables, id, allow, remember, grants);
            Run(node, [Open(n, path, id, allow, remember, grants)] + Repeated(Proceed(n), |plan|)).tables ==
            if path == Direct then DirectAnswer(node.tables, id, allow, remember, grants).0
            else ChannelAnswer(node.tables, id, allow, remember, grants).0
  {
    var plan := Plan(path, node.tables, id, allow, remember, grants);
    var events := [Open(n, path, id, allow, remember, grants)] + Repeated(Proceed(n), |plan|);
    PlanIsAnswer(path, node.tables, id, allow, remember, grants);
    assert events[1..] == Repeated(Proceed(n), |plan|);
    var node' := Next(node, events[0]);
    if plan != [] {
      assert node'.sessions[n].rest == plan;
      ProceedToTheEnd(node', n);
    } else {
      assert events[1..] == [];
      assert Run(node, events) == Run(node', []);
    }
  }

  /** No session in progress reads the row another is answering. */
  predicate OpensAlone(node: Node, event: Event) {
    event.Open? ==> forall n :: n in node.sessions && node.sessions[n].row.id == event.id ==> node.sessions[n].rest == []
  }

  /** Rows about to be marked are pending, and no two sessions in progress have the same row. */
  ghost predicate Alone(node: Node) {
    && (forall m, n :: m in node.sessions && n in node.sessions && m != n ==> Apart(node.sessions[m], node.sessions[n]))
    && (forall n :: n in node.sessions ==> UnmarkedIsPending(node.sessions[n], node.tables.inbox))
  }

  predicate Apart(a: Session, b: Session) {
    a.rest != [] && b.rest != [] ==> a.row.id != b.row.id
  }

  predicate UnmarkedIsPending(s: Session, inbox: seq<InboxRow>) {
    !s.Marked() ==> forall row :: row in inbox && row.id == s.row.id ==> row.decision.None?
  }

  lemma AloneNeverOverwrites(node: Node, n: nat)
    requires Sound(node) && Alone(node)
    ensures !Overwrites(node, n)
  {
    if n in node.sessions && !node.sessions[n].Marked() {
      assert SessionOk(node.sessions[n], node.tables.inbox) && StepOk(node.sessions[n], node.sessions[n].rest[0]);
      assert UnmarkedIsPending(node.sessions[n], node.tables.inbox);
    }
  }

  lemma AppendedAlone(node: Node, row: InboxRow)
    requires Sound(node) && Alone(node) && !UsesId(node.tables.inbox, row.id)
    ensures Alone(Appended(node, row))
  {
    forall n | n in node.sessions ensures UnmarkedIsPending(node.sessions[n], node.tables.inbox + [row]) {
      assert SessionOk(node.sessions[n], node.tables.inbox) && UnmarkedIsPending(node.sessions[n], node.tables.inbox);
    }
  }

  lemma OpenedAlone(node: Node, event: Event)
    requires Sound(node) && Alone(node) && event.Open? && OpensAlone(node, event)
    ensures Alone(Next(node, event))
  {
    var node' := Next(node, event);
    if node' != node {
      var read := node'.sessions[event.session].row;
      forall row | row in node.tables.inbox && row.id == read.id ensures row.decision.None? {
        SameId(node.tables.inbox, row, read);
      }
      forall n | n in node'.sessions ensures UnmarkedIsPending(node'.sessions[n], node.tables.inbox) {
        assert n in node.sessions ==> UnmarkedIsPending(node.sessions[n], node.tables.inbox);
      }
    }
  }

  /** A mark of another row leaves a pending row pending. */
  lemma UnmarkedStays(t: Session, tables: Tables, statement: Statement)
    requires UnmarkedIsPending(t, tables.inbox)
    requires statement.Mark? && !t.Marked() ==> statement.id != t.row.id
    ensures UnmarkedIsPending(t, Executed(tables, statement).inbox)
  {
    if statement.Mark? && !t.Marked() {
      MarkedRows(tables.inbox, statement.id, statement.decision);
    }
  }

  lemma ProceedAlone(node: Node, n: nat)
    requires Sound(node) && Alone(node) && n in node.sessions && node.sessions[n].rest != []
    ensures Alone(Next(node, Proceed(n)))
  {
    var s, node' := node.sessions[n], Next(node, Proceed(n));
    assert StepOk(s, s.rest[0]) && Advanced(s).Marked() by {
      assert SessionOk(s, node.tables.inbox);
      AdvancedOk(s, node.tables.inbox);
    }
    forall m | m in node'.sessions ensures UnmarkedIsPending(node'.sessions[m], node'.tables.inbox) {
      if m != n {
        assert Apart(node.sessions[m], s);
        UnmarkedStays(node.sessions[m], node.tables, s.rest[0]);
      }
    }
    forall a, b | a in node'.sessions && b in node'.sessions && a != b
      ensures Apart(node'.sessions[a], node'.sessions[b])
    {
      assert Apart(node.sessions[a], node.sessions[b]);
    }
  }

  lemma NextAlone(node: Node, event: Event)
    requires Sound(node) && Alone(node) && OpensAlone(node, event)
    ensures Alone(Next(node, event))
  {
    match event
    case Ask(request, env) =>
      ReplyParks(node.tables, request, env);
      if Parks(node.tables, request, env) {
        AppendedAlone(node, ParkedRow(request, env.freshId));
      }
    case ParkKnock(peer, id, message) =>
      if Next(node, event) != node {
        AppendedAlone(node, InboxRow(id, peer, "", NotJson("knock: " + message), None));
      }
    case Open(_, _, _, _, _, _) => OpenedAlone(node, event);
    case Proceed(n) =>
      if n in node.sessions && node.sessions[n].rest != [] {
        ProceedAlone(node, n);
      }
    case Stop(_) =>
    case Invalidate =>
  }

  ghost predicate AnsweredOneAtATime(node: Node, events: seq<Event>)
    decreases |events|
  {
    events == [] || (OpensAlone(node, events[0]) && AnsweredOneAtATime(Next(node, events[0]), events[1..]))
  }

  lemma {:induction false} RunAlone(node: Node, events: seq<Event>)
    requires Sound(node) && Alone(node) && AnsweredOneAtATime(node, events)
    ensures Sound(Run(node, events)) && Alone(Run(node, events))
    decreases |events|
  {
    if events != [] {
      NextSound(node, events[0]);
      NextAlone(node, events[0]);
      RunAlone(Next(node, events[0]), events[1..]);
    }
  }

  /** Where no answer is begun on a row another is still answering, no answer ever overwrites one. */
  lemma SerialAnswersNeverOverwrite(events: seq<Event>, n: nat)
    requires AnsweredOneAtATime(FRESH, events)
    ensures !Overwrites(Run(FRESH, events), n)
  {
    RunAlone(FRESH, events);
    AloneNeverOverwrites(Run(FRESH, events), n);
  }

  // ----- what cannot be mended -----

  /** Decided, not cached, and no session left that would mark or cache it. */
  predicate Lost(row: InboxRow, node: Node)
    requires IsStatement(row)
  {
    row.decision.Some? && KeyOfRow(row) !in node.tables.decisions && NobodyAnswers(node.sessions, row.id)
  }

  predicate NobodyAnswers(sessions: map<nat, Session>, id: string) {
    forall n :: n in sessions && sessions[n].row.id == id ==> sessions[n].Marked() && !sessions[n].WillRecord()
  }

  ghost predicate Broken(node: Node) {
    || !OneRowPerKey(node.tables.inbox)
    || exists row :: row in node.tables.inbox && IsStatement(row) && Lost(row, node)
  }

  /** Only a session of the row itself marks it or caches its key. */
  lemma LostIsLeftAlone(node: Node, row: InboxRow, n: nat)
    requires Sound(node) && OneRowPerKey(node.tables.inbox) && row in node.tables.inbox && IsStatement(row) && Lost(row, node)
    requires n in node.sessions && node.sessions[n].rest != []
    ensures node.sessions[n].rest[0].Mark? ==> node.sessions[n].rest[0].id != row.id
    ensures node.sessions[n].rest[0].Record? ==> node.sessions[n].rest[0].key != KeyOfRow(row)
  {
    var s := node.sessions[n];
    assert SessionOk(s, node.tables.inbox) && StepOk(s, s.rest[0]) && s.rest[0] in s.rest;
    if s.rest[0].Record? {
      var read :| read in node.tables.inbox && SameRow(read, s.row);
      assert KeyOfRow(read) == s.rest[0].key;
    }
  }

  lemma NobodyAnswersAfter(sessions: map<nat, Session>, id: string, n: nat, inbox: seq<InboxRow>)
    requires NobodyAnswers(sessions, id) && n in sessions && sessions[n].rest != [] && SessionOk(sessions[n], inbox)
    ensures NobodyAnswers(sessions[n := Advanced(sessions[n])], id)
  {
    AdvancedOk(sessions[n], inbox);
  }

  lemma OtherMark(inbox: seq<InboxRow>, id: string, decision: string, row: InboxRow)
    requires row in inbox && row.id != id
    ensures row in MarkDecided(inbox, id, decision)
  {
    var i :| 0 <= i < |inbox| && inbox[i] == row;
    assert MarkDecided(inbox, id, decision)[i] == row;
  }

  lemma OtherStatement(tables: Tables, statement: Statement, row: InboxRow)
    requires row in tables.inbox && IsStatement(row) && KeyOfRow(row) !in tables.decisions
    requires statement.Mark? ==> statement.id != row.id
    requires statement.Record? ==> statement.key != KeyOfRow(row)
    ensures row in Executed(tables, statement).inbox && KeyOfRow(row) !in Executed(tables, statement).decisions
  {
    if statement.Mark? {
      OtherMark(tables.inbox, statement.id, statement.decision, row);
    }
  }

  lemma LostAfterProceed(node: Node, row: InboxRow, n: nat)
    requires Sound(node) && OneRowPerKey(node.tables.inbox) && row in node.tables.inbox && IsStatement(row) && Lost(row, node)
    requires n in node.sessions && node.sessions[n].rest != []
    ensures row in Next(node, Proceed(n)).tables.inbox && Lost(row, Next(node, Proceed(n)))
  {
    LostIsLeftAlone(node, row, n);
    NobodyAnswersAfter(node.sessions, row.id, n, node.tables.inbox);
    OtherStatement(node.tables, node.sessions[n].rest[0], row);
  }

  lemma LostAfterOpen(node: Node, row: InboxRow, event: Event)
    requires Sound(node) && row in node.tables.inbox && IsStatement(row) && Lost(row, node) && event.Open?
    ensures Lost(row, Next(node, event))
  {
    var node' := Next(node, event);
    if node' != node {
      var read := node'.sessions[event.session].row;
      assert read in node.tables.inbox && read.decision.None?;
      if read.id == row.id {
        SameId(node.tables.inbox, read, row);
      }
    }
  }

  lemma BrokenStays(node: Node, event: Event)
    requires Sound(node) && Broken(node) && !event.Invalidate?
    ensures Broken(Next(node, event))
  {
    NextOneRow(node, event);
    if OneRowPerKey(node.tables.inbox) {
      var row :| row in node.tables.inbox && IsStatement(row) && Lost(row, node);
      match event
      case Ask(request, env) => ReplyParks(node.tables, request, env); assert Lost(row, Next(node, event));
      case ParkKnock(_, _, _) => assert Lost(row, Next(node, event));
      case Open(_, _, _, _, _, _) => LostAfterOpen(node, row, event);
      case Proceed(n) =>
        if n in node.sessions && node.sessions[n].rest != [] {
          LostAfterProceed(node, row, n);
        }
      case Stop(_) => assert Lost(row, Next(node, event));
    }
  }

  /** Answered one at a time, a disturbance is beyond repair. */
  lemma DisturbedIsBroken(node: Node, event: Event)
    requires InStep(node) && Alone(node) && Disturbs(node, event) && !event.Invalidate?
    ensures Broken(Next(node, event))
  {
    match event
    case Ask(request, env) => NextOneRow(node, event);
    case Proceed(n) => AloneNeverOverwrites(node, n);
    case Stop(n) =>
      var row :| row in node.tables.inbox && IsStatement(row) && row.decision.Some?
                 && KeyOfRow(row) !in node.tables.decisions && !Answering(row, node.sessions - {n});
      forall m | m in node.sessions - {n} && node.sessions[m].row.id == row.id
        ensures node.sessions[m].Marked() && !node.sessions[m].WillRecord()
      {
        UnansweredHasNoSession(node, n, row, m);
      }
      assert Lost(row, Next(node, event));
  }

  lemma UnansweredHasNoSession(node: Node, n: nat, row: InboxRow, m: nat)
    requires InStep(node) && Alone(node) && row in node.tables.inbox && IsStatement(row) && row.decision.Some?
    requires !Answering(row, node.sessions - {n}) && m in node.sessions && m != n && node.sessions[m].row.id == row.id
    ensures node.sessions[m].Marked() && !node.sessions[m].WillRecord()
  {
    var s := node.sessions[m];
    assert UnmarkedIsPending(s, node.tables.inbox);
    assert (node.sessions - {n})[m] == s && Agrees(s, node.tables.inbox);
    if s.WillRecord() {
      SameId(node.tables.inbox, s.row.(decision := Some(s.decision)), row);
    }
  }

  predicate NeverInvalidated(events: seq<Event>) {
    forall i :: 0 <= i < |events| ==> !events[i].Invalidate?
  }

  lemma {:induction false} BrokenToTheEnd(node: Node, events: seq<Event>)
    requires Sound(node) && Broken(node) && NeverInvalidated(events)
    ensures Sound(Run(node, events)) && Broken(Run(node, events))
    decreases |events|
  {
    if events != [] {
      NextSound(node, events[0]);
      BrokenStays(node, events[0]);
      BrokenToTheEnd(Next(node, events[0]), events[1..]);
    }
  }

  lemma {:induction false} SerialRunIsInStepOrBroken(node: Node, events: seq<Event>)
    requires InStep(node) && Alone(node) && AnsweredOneAtATime(node, events) && NeverInvalidated(events)
    ensures if Undisturbed(node, events) then InStep(Run(node, events)) else Broken(Run(node, events))
    ensures Sound(Run(node, events))
    decreases |events|
  {
    if events != [] {
      var node' := Next(node, events[0]);
      NextSound(node, events[0]);
      NextAlone(node, events[0]);
      StepStaysInStep(node, events[0]);
      if Disturbs(node, events[0]) {
        DisturbedIsBroken(node, events[0]);
        BrokenToTheEnd(node', events[1..]);
      } else {
        SerialRunIsInStepOrBroken(node', events[1..]);
      }
    }
  }

  /** Over every run that begins no answer on a row another is answering, and clears no cache: whenever no
      answer is in progress, each shape has one row, pending exactly while the cache lacks its key and cached
      as decided, if and only if no request was ever asked again and no answer stopped between its mark and
      its cache entry. */
  lemma EverySerialRunIsCoherentExactly(events: seq<Event>)
    requires AnsweredOneAtATime(FRESH, events) && NeverInvalidated(events) && Quiet(Run(FRESH, events))
    ensures Coherent(Run(FRESH, events).tables) <==> Undisturbed(FRESH, events)
  {
    SerialRunIsInStepOrBroken(FRESH, events);
    var node := Run(FRESH, events);
    QuietMeansCoherent(node);
    if Broken(node) && OneRowPerKey(node.tables.inbox) {
      var row :| row in node.tables.inbox && IsStatement(row) && Lost(row, node);
      assert !Settled(row, node.tables.decisions);
    }
  }

  // ----- the named events do happen -----

  /** The node after one request was parked. */
  function Parked(request: Request, env: Env): Node {
    Node(Tables([ParkedRow(request, env.freshId)], map[], [], map[]), map[])
  }

  lemma FirstRequestIsParked(request: Request, env: Env)
    requires Parkable(request) && env.humanFault == Healthy
    ensures Next(FRESH, Ask(request, env)) == Parked(request, env)
  {
    ReplyParks(FRESH.tables, request, env);
    assert [] + [ParkedRow(request, env.freshId)] == [ParkedRow(request, env.freshId)];
  }

  /** The session of an answer without grants or remembering. */
  function PlainSession(request: Request, env: Env, allow: bool): Session {
    var row := ParkedRow(request, env.freshId);
    Session(row, Verdict(allow),
            [Mark(row.id, Verdict(allow)), Record((request.peer, KeyOf(request)), Entry(row.id, Verdict(allow)))])
  }

  lemma PlainOpened(node: Node, n: nat, request: Request, env: Env, allow: bool)
    requires Parkable(request) && node.tables == Parked(request, env).tables && n !in node.sessions
    ensures Next(node, Open(n, Channel, env.freshId, allow, false, []))
            == node.(sessions := node.sessions[n := PlainSession(request, env, allow)])
  {
    var row := ParkedRow(request, env.freshId);
    assert FindRow(node.tables.inbox, env.freshId) == Some(row);
    assert RecordPlan(row, Verdict(allow), false)
           == [Record((request.peer, KeyOf(request)), Entry(row.id, Verdict(allow)))];
    assert AfterMark(Channel, row, allow, false, []) == RecordPlan(row, Verdict(allow), false);
    assert Plan(Channel, node.tables, env.freshId, allow, false, []) == PlainSession(request, env, allow).rest;
  }

  /** A retry that comes between the mark and the cache entry is asked again, whatever the cache does; one that
      comes after is exactly when the cache cannot be read. */
  lemma RetryIsAskedAgain(request: Request, env: Env, retry: Env, allow: bool)
    requires Parkable(request) && env.humanFault == Healthy && retry.humanFault == Healthy && retry.freshId != env.freshId
    ensures var asked := Next(Next(FRESH, Ask(request, env)), Open(0, Channel, env.freshId, allow, false, []));
            var marked := Next(asked, Proceed(0));
            && !AskedAgain(asked.tables, request, retry)
            && AskedAgain(marked.tables, request, retry)
            && (AskedAgain(Next(marked, Proceed(0)).tables, request, retry) <==> retry.cacheFails)
  {
    var row := ParkedRow(request, env.freshId);
    FirstRequestIsParked(request, env);
    PlainOpened(Parked(request, env), 0, request, env, allow);
    OnlyRowAskedAgain(Parked(request, env).tables, row, request, retry);
    var decided := row.(decision := Some(Verdict(allow)));
    assert MarkDecided([row], row.id, Verdict(allow)) == [decided];
    var marked := Next(Next(Parked(request, env), Open(0, Channel, env.freshId, allow, false, [])), Proceed(0));
    OnlyRowAskedAgain(marked.tables, decided, request, retry);
    OnlyRowAskedAgain(Next(marked, Proceed(0)).tables, decided, request, retry);
  }

  /** One row of the request's shape: asked again exactly when it is decided and the cache does not answer. */
  lemma OnlyRowAskedAgain(tables: Tables, row: InboxRow, request: Request, retry: Env)
    requires tables.inbox == [row] && ParkedAs(row, request.peer, KeyOf(request))
    requires Parkable(request) && retry.humanFault == Healthy && row.id != retry.freshId
    ensures AskedAgain(tables, request, retry) <==>
            row.decision.Some? && (retry.cacheFails || (request.peer, KeyOf(request)) !in tables.decisions)
  {
    assert [row][0] in tables.inbox;
  }

  /** Two answers that both read the row as pending: once the first has marked it, the second overwrites it. */
  lemma RacingAnswersOverwrite(request: Request, env: Env, allow: bool)
    requires Parkable(request) && env.humanFault == Healthy
    ensures var both := Next(Next(Next(FRESH, Ask(request, env)), Open(0, Channel, env.freshId, allow, false, [])),
                             Open(1, Channel, env.freshId, !allow, false, []));
            Overwrites(Next(both, Proceed(0)), 1)
  {
    FirstRequestIsParked(request, env);
    var first := Next(Parked(request, env), Open(0, Channel, env.freshId, allow, false, []));
    PlainOpened(Parked(request, env), 0, request, env, allow);
    PlainOpened(first, 1, request, env, !allow);
    var row := ParkedRow(request, env.freshId);
    var decided := row.(decision := Some(Verdict(allow)));
    assert MarkDecided([row], row.id, Verdict(allow)) == [decided];
    assert [decided][0] in [decided];
  }
}
