/** Runs under the chain `["cache", "human"]`: requests, knocks, and owner answers whose SQL statements
    interleave with everything else. Each request shape is asked of the owner once and answered from then on,
    exactly as long as none of a few named events happens. */
module Runs {
  import opened AuthTypes
  import opened AuthTables
  import opened Fingerprint
  import opened Tiers
  import opened Chain
  import opened Answers

  const TIERS := BuiltinTiers(true)
  const CONFIG := Config(["cache", "human"], map[])

  /** An answer in progress: the row as it was read, the verdict, and the statements still to execute. */
  datatype Session = Session(row: InboxRow, decision: string, rest: seq<Statement>)
  {
    predicate Marked() {
      rest == [] || !rest[0].Mark?
    }

    predicate WillRecord() {
      IsStatement(row) && Record(KeyOfRow(row), Entry(row.id, decision)) in rest
    }
  }

  datatype Node = Node(tables: Tables, sessions: map<nat, Session>)

  datatype Event =
    | Ask(request: Request, env: Env)
    | ParkKnock(peer: string, id: string, message: string)
    | Open(session: nat, path: Path, id: string, allow: bool, remember: bool, grants: seq<string>)
    | Proceed(session: nat)
    | Stop(session: nat)
    | Invalidate

  predicate HasPendingKnock(inbox: seq<InboxRow>, peer: string) {
    exists row :: row in inbox && row.peer == peer && row.decision.None? && row.sql == ""
  }

  /** The node's `park_knock`: one pending knock a peer. */
  function KnockParked(tables: Tables, peer: string, id: string, message: string): Tables {
    if HasPendingKnock(tables.inbox, peer) || UsesId(tables.inbox, id) then tables
    else tables.(inbox := tables.inbox + [InboxRow(id, peer, "", NotJson("knock: " + message), None)])
  }

  ghost function Reply(tables: Tables, request: Request, env: Env): (Tables, Decided) {
    ChainAnswer(TIERS, CONFIG, tables, request, env)
  }

  /** A session that has executed its next statement. */
  function Advanced(s: Session): Session
    requires s.rest != []
  {
    s.(rest := s.rest[1..])
  }

  /** One event. A session is opened by the read of an answer, which may reject it; it then executes its
      statements one at a time, and may stop anywhere: the answering process dies, or a statement fails. */
  ghost function Next(node: Node, event: Event): Node {
    match event
    case Ask(request, env) => node.(tables := Reply(node.tables, request, env).0)
    case ParkKnock(peer, id, message) => node.(tables := KnockParked(node.tables, peer, id, message))
    case Open(session, path, id, allow, remember, grants) =>
      var plan := Plan(path, node.tables, id, allow, remember, grants);
      if session in node.sessions || plan == [] then node
      else node.(sessions := node.sessions[session := Session(FindRow(node.tables.inbox, id).value, Verdict(allow), plan)])
    case Proceed(session) =>
      if session !in node.sessions || node.sessions[session].rest == [] then node
      else
        var s := node.sessions[session];
        Node(Executed(node.tables, s.rest[0]), node.sessions[session := Advanced(s)])
    case Stop(session) => node.(sessions := node.sessions - {session})
    case Invalidate => node.(tables := node.tables.(decisions := map[]))
  }

  ghost function Run(node: Node, events: seq<Event>): Node
    decreases |events|
  {
    if events == [] then node else Run(Next(node, events[0]), events[1..])
  }

  const FRESH := Node(Tables([], map[], [], map[]), map[])

  // ----- rows and their keys -----

  predicate IsStatement(row: InboxRow) {
    row.sql != "" && row.params.Readable?
  }

  function KeyOfRow(row: InboxRow): DecisionKey
    requires IsStatement(row)
  {
    (row.peer, row.params.parked.fingerprint)
  }

  predicate DistinctIds(inbox: seq<InboxRow>) {
    forall i, j :: 0 <= i < j < |inbox| ==> inbox[i].id != inbox[j].id
  }

  lemma SameId(inbox: seq<InboxRow>, a: InboxRow, b: InboxRow)
    requires DistinctIds(inbox) && a in inbox && b in inbox && a.id == b.id
    ensures a == b
  {
  }

  /** Statement rows are readable, and every cached key has its row. */
  ghost predicate Shaped(tables: Tables) {
    && DistinctIds(tables.inbox)
    && (forall row :: row in tables.inbox && row.sql != "" ==> IsStatement(row))
    && (forall key :: key in tables.decisions ==> KeyHasRow(tables.inbox, key))
  }

  predicate KeyHasRow(inbox: seq<InboxRow>, key: DecisionKey) {
    exists row :: row in inbox && IsStatement(row) && KeyOfRow(row) == key
  }

  /** At most one statement row was ever parked for a peer and shape. */
  predicate OneRowPerKey(inbox: seq<InboxRow>) {
    forall a, b :: a in inbox && b in inbox && IsStatement(a) && IsStatement(b) && KeyOfRow(a) == KeyOfRow(b) ==> a.id == b.id
  }

  /** The cache entry agrees with what happened to the row. */
  predicate Settled(row: InboxRow, decisions: map<DecisionKey, Remembered>)
    requires IsStatement(row)
  {
    var key := KeyOfRow(row);
    && (row.decision.None? <==> key !in decisions)
    && (row.decision.Some? ==> row.decision.value in {"allow", "deny"} && decisions[key] == Entry(row.id, row.decision.value))
  }

  /** Every shape has at most one row, pending exactly while the cache lacks its key, and cached as decided. */
  ghost predicate Coherent(tables: Tables) {
    Shaped(tables) && OneRowPerKey(tables.inbox)
    && forall row :: row in tables.inbox && IsStatement(row) ==> Settled(row, tables.decisions)
  }

  // ----- what holds in every run -----

  predicate EntriesOk(decisions: map<DecisionKey, Remembered>) {
    forall key :: key in decisions ==> decisions[key].decision in {"allow", "deny"} && decisions[key].expires.None?
  }

  /** `row` is the row a session read, decided since or not. */
  predicate SameRow(row: InboxRow, read: InboxRow) {
    row == read.(decision := row.decision)
  }

  predicate StepOk(s: Session, statement: Statement) {
    && (statement.Mark? ==> statement == Mark(s.row.id, s.decision))
    && (statement.Record? ==> IsStatement(s.row) && statement == Record(KeyOfRow(s.row), Entry(s.row.id, s.decision)))
  }

  /** What is left of an answer: its mark comes first, and on a statement row is followed by its cache entry. */
  predicate SessionOk(s: Session, inbox: seq<InboxRow>) {
    && (exists row :: row in inbox && SameRow(row, s.row))
    && (s.row.sql != "" ==> IsStatement(s.row))
    && s.decision in {"allow", "deny"}
    && (forall i :: 0 <= i < |s.rest| ==> StepOk(s, s.rest[i]))
    && (forall i :: 0 < i < |s.rest| ==> !s.rest[i].Mark?)
    && (!s.Marked() && IsStatement(s.row) ==> s.WillRecord())
  }

  ghost predicate Sound(node: Node) {
    && Shaped(node.tables) && EntriesOk(node.tables.decisions)
    && forall n :: n in node.sessions ==> SessionOk(node.sessions[n], node.tables.inbox)
  }

  lemma PlanOk(path: Path, tables: Tables, id: string, allow: bool, remember: bool, grants: seq<string>)
    requires Shaped(tables) && Plan(path, tables, id, allow, remember, grants) != []
    ensures var row, plan := FindRow(tables.inbox, id).value, Plan(path, tables, id, allow, remember, grants);
            SessionOk(Session(row, Verdict(allow), plan), tables.inbox) && plan[0].Mark?
  {
    var row := FindRow(tables.inbox, id).value;
    var s := Session(row, Verdict(allow), Plan(path, tables, id, allow, remember, grants));
    var after := AfterMark(path, row, allow, remember, grants);
    AfterMarkOk(path, row, allow, remember, grants);
    assert s.rest == [Mark(id, Verdict(allow))] + after;
    assert SameRow(row, s.row);
    forall i | 0 < i < |s.rest| ensures StepOk(s, s.rest[i]) && !s.rest[i].Mark? {
      assert s.rest[i] == after[i - 1] && after[i - 1] in after;
    }
  }

  lemma AfterMarkOk(path: Path, row: InboxRow, allow: bool, remember: bool, grants: seq<string>)
    ensures forall statement :: statement in AfterMark(path, row, allow, remember, grants) ==>
              !statement.Mark?
              && (statement.Record? ==> IsStatement(row) && statement == Record(KeyOfRow(row), Entry(row.id, Verdict(allow))))
    ensures IsStatement(row) ==>
              Record(KeyOfRow(row), Entry(row.id, Verdict(allow))) in AfterMark(path, row, allow, remember, grants)
  {
    GrantsAreRules(row.peer, row.id, grants);
    if IsStatement(row) {
      var plan := RecordPlan(row, Verdict(allow), remember);
      assert plan[0] == Record(KeyOfRow(row), Entry(row.id, Verdict(allow)));
    }
  }

  lemma {:induction false} GrantsAreRules(peer: string, id: string, grants: seq<string>)
    ensures forall statement :: statement in GrantPlan(peer, id, grants) ==> statement.AddRuleIfAbsent?
  {
    if grants != [] {
      GrantsAreRules(peer, id, grants[1..]);
    }
  }

  // ----- a request -----

  lemma ReplyUnfolds(tables: Tables, request: Request, env: Env)
    ensures var cached := CacheAnswer(tables, request, env.now, env.cacheFails);
            var (parked, asked) := HumanAnswer(tables, request, env.freshId, env.humanFault);
            Reply(tables, request, env) ==
              if cached != Escalate then (tables, Decided(cached, "cache"))
              else (parked, if asked != Escalate then Decided(asked, "human") else TAIL)
  {
    var rest := CONFIG.(names := CONFIG.names[1..]);
    assert CONFIG.names[1..] == ["human"] && rest.names[1..] == [];
    assert TIERS["cache"] == CacheTier && TIERS["human"] == HumanTier;
    if CacheAnswer(tables, request, env.now, env.cacheFails) == Escalate {
      assert Reply(tables, request, env) == ChainAnswer(TIERS, rest, tables, request, env);
    }
  }

  /** A request the human tier parks: nothing pending has its shape, and the cache does not answer. */
  predicate Parks(tables: Tables, request: Request, env: Env) {
    && Parkable(request) && env.humanFault == Healthy && !UsesId(tables.inbox, env.freshId)
    && !HasPending(tables.inbox, request.peer, KeyOf(request))
    && (env.cacheFails || (request.peer, KeyOf(request)) !in tables.decisions)
  }

  /** All a request can do to the tables is to park. */
  lemma ReplyParks(tables: Tables, request: Request, env: Env)
    requires Shaped(tables) && EntriesOk(tables.decisions)
    ensures Reply(tables, request, env).0 ==
            if Parks(tables, request, env) then tables.(inbox := tables.inbox + [ParkedRow(request, env.freshId)]) else tables
  {
    ReplyUnfolds(tables, request, env);
    LookUpReadable(tables.inbox, request.peer, KeyOf(request));
  }

  /** A request parked although the owner was asked about its shape before, and answered: the answer is not in
      the cache yet, or never came to be there, or the cache read fails. */
  predicate AskedAgain(tables: Tables, request: Request, env: Env) {
    Parks(tables, request, env) && KeyHasRow(tables.inbox, (request.peer, KeyOf(request)))
  }

  // ----- events that append a row -----

  function Appended(node: Node, row: InboxRow): Node {
    node.(tables := node.tables.(inbox := node.tables.inbox + [row]))
  }

  lemma AppendSound(node: Node, row: InboxRow)
    requires Sound(node) && !UsesId(node.tables.inbox, row.id) && (row.sql != "" ==> IsStatement(row))
    ensures Sound(Appended(node, row))
  {
    var inbox, inbox' := node.tables.inbox, node.tables.inbox + [row];
    forall i, j | 0 <= i < j < |inbox'| ensures inbox'[i].id != inbox'[j].id {
      assert inbox'[i] == inbox[i] && inbox[i] in inbox;
    }
    forall key | key in node.tables.decisions ensures KeyHasRow(inbox', key) {
      assert KeyHasRow(inbox, key);
      var twin :| twin in inbox && IsStatement(twin) && KeyOfRow(twin) == key;
      assert twin in inbox';
    }
    forall n | n in node.sessions ensures SessionOk(node.sessions[n], inbox') {
      var read :| read in inbox && SameRow(read, node.sessions[n].row);
      assert read in inbox';
    }
  }

  // ----- events that execute a statement -----

  /** The row after `Mark`. */
  function MarkedRow(row: InboxRow, id: string, decision: string): InboxRow {
    if row.id == id then row.(decision := Some(decision)) else row
  }

  lemma MarkedRows(inbox: seq<InboxRow>, id: string, decision: string)
    ensures forall row :: row in inbox ==> MarkedRow(row, id, decision) in MarkDecided(inbox, id, decision)
    ensures forall row' :: row' in MarkDecided(inbox, id, decision) ==>
              exists row :: row in inbox && row' == MarkedRow(row, id, decision)
  {
    var inbox' := MarkDecided(inbox, id, decision);
    forall row | row in inbox ensures MarkedRow(row, id, decision) in inbox' {
      var i :| 0 <= i < |inbox| && inbox[i] == row;
      assert inbox'[i] == MarkedRow(row, id, decision);
    }
    forall row' | row' in inbox' ensures exists row :: row in inbox && row' == MarkedRow(row, id, decision) {
      var i :| 0 <= i < |inbox'| && inbox'[i] == row';
      assert row' == MarkedRow(inbox[i], id, decision);
    }
  }

  lemma MarkShaped(tables: Tables, id: string, decision: string)
    requires Shaped(tables)
    ensures Shaped(Executed(tables, Mark(id, decision)))
  {
    var inbox, inbox' := tables.inbox, MarkDecided(tables.inbox, id, decision);
    forall row' | row' in inbox' && row'.sql != "" ensures IsStatement(row') {
      var i :| 0 <= i < |inbox'| && inbox'[i] == row';
      assert inbox[i] in inbox;
    }
    forall key | key in tables.decisions ensures KeyHasRow(inbox', key) {
      MarkKeepsKey(inbox, id, decision, key);
    }
  }

  lemma MarkKeepsKey(inbox: seq<InboxRow>, id: string, decision: string, key: DecisionKey)
    requires KeyHasRow(inbox, key)
    ensures KeyHasRow(MarkDecided(inbox, id, decision), key)
  {
    var row :| row in inbox && IsStatement(row) && KeyOfRow(row) == key;
    var i :| 0 <= i < |inbox| && inbox[i] == row;
    assert KeyOfRow(MarkDecided(inbox, id, decision)[i]) == key;
  }

  lemma MarkOneRow(inbox: seq<InboxRow>, id: string, decision: string)
    ensures OneRowPerKey(MarkDecided(inbox, id, decision)) <==> OneRowPerKey(inbox)
  {
    var inbox' := MarkDecided(inbox, id, decision);
    if OneRowPerKey(inbox) {
      forall i, j | 0 <= i < |inbox| && 0 <= j < |inbox| && IsStatement(inbox'[i]) && IsStatement(inbox'[j])
                    && KeyOfRow(inbox'[i]) == KeyOfRow(inbox'[j])
        ensures inbox'[i].id == inbox'[j].id
      {
        assert inbox[i].id == inbox[j].id by { TwoAt(inbox, i, j); }
      }
    }
    if OneRowPerKey(inbox') {
      forall i, j | 0 <= i < |inbox| && 0 <= j < |inbox| && IsStatement(inbox[i]) && IsStatement(inbox[j])
                    && KeyOfRow(inbox[i]) == KeyOfRow(inbox[j])
        ensures inbox[i].id == inbox[j].id
      {
        assert inbox'[i].id == inbox'[j].id by { TwoAt(inbox', i, j); }
      }
    }
  }

  lemma TwoAt(inbox: seq<InboxRow>, i: nat, j: nat)
    requires OneRowPerKey(inbox) && i < |inbox| && j < |inbox| && IsStatement(inbox[i]) && IsStatement(inbox[j])
    requires KeyOfRow(inbox[i]) == KeyOfRow(inbox[j])
    ensures inbox[i].id == inbox[j].id
  {
  }

  lemma AdvancedOk(s: Session, inbox: seq<InboxRow>)
    requires SessionOk(s, inbox) && s.rest != []
    ensures SessionOk(Advanced(s), inbox) && Advanced(s).Marked()
    ensures Advanced(s).WillRecord() ==> s.WillRecord()
    ensures s.WillRecord() && !s.rest[0].Record? ==> Advanced(s).WillRecord()
  {
    assert s.rest == [s.rest[0]] + s.rest[1..];
  }

  lemma ProceedSound(node: Node, n: nat)
    requires Sound(node) && n in node.sessions && node.sessions[n].rest != []
    ensures Sound(Next(node, Proceed(n)))
  {
    var s, node' := node.sessions[n], Next(node, Proceed(n));
    AdvancedOk(s, node.tables.inbox);
    StatementSound(node.tables, s);
    forall m | m in node'.sessions ensures SessionOk(node'.sessions[m], node'.tables.inbox) {
      var t := if m == n then Advanced(s) else node.sessions[m];
      StatementKeepsSession(node.tables, s.rest[0], t);
    }
  }

  /** The tables after the next statement of a session. */
  lemma StatementSound(tables: Tables, s: Session)
    requires Shaped(tables) && EntriesOk(tables.decisions) && SessionOk(s, tables.inbox) && s.rest != []
    ensures Shaped(Executed(tables, s.rest[0])) && EntriesOk(Executed(tables, s.rest[0]).decisions)
  {
    assert StepOk(s, s.rest[0]);
    if s.rest[0].Mark? {
      MarkShaped(tables, s.row.id, s.decision);
    } else if s.rest[0].Record? {
      var row :| row in tables.inbox && SameRow(row, s.row);
      assert KeyHasRow(tables.inbox, KeyOfRow(s.row));
    }
  }

  lemma StatementKeepsSession(tables: Tables, statement: Statement, t: Session)
    requires SessionOk(t, tables.inbox)
    ensures SessionOk(t, Executed(tables, statement).inbox)
  {
    if statement.Mark? {
      MarkedRows(tables.inbox, statement.id, statement.decision);
      var row :| row in tables.inbox && SameRow(row, t.row);
      assert SameRow(MarkedRow(row, statement.id, statement.decision), t.row);
    }
  }

  lemma NextSound(node: Node, event: Event)
    requires Sound(node)
    ensures Sound(Next(node, event))
  {
    match event
    case Ask(request, env) =>
      ReplyParks(node.tables, request, env);
      if Parks(node.tables, request, env) {
        AppendSound(node, ParkedRow(request, env.freshId));
      }
    case ParkKnock(peer, id, message) =>
      if Next(node, event) != node {
        AppendSound(node, InboxRow(id, peer, "", NotJson("knock: " + message), None));
      }
    case Open(session, path, id, allow, remember, grants) =>
      if Next(node, event) != node {
        PlanOk(path, node.tables, id, allow, remember, grants);
      }
    case Proceed(session) =>
      if Next(node, event) != node && session in node.sessions && node.sessions[session].rest != [] {
        ProceedSound(node, session);
      }
    case Stop(_) =>
    case Invalidate =>
  }

  // ----- one row a shape: whatever else happens -----

  /** The only event that parks a second row of a shape is a request asked again. */
  lemma NextOneRow(node: Node, event: Event)
    requires Sound(node)
    ensures OneRowPerKey(Next(node, event).tables.inbox) <==>
            OneRowPerKey(node.tables.inbox) && !(event.Ask? && AskedAgain(node.tables, event.request, event.env))
  {
    match event
    case Ask(request, env) => AskOneRow(node.tables, request, env);
    case ParkKnock(peer, id, message) =>
      if Next(node, event) != node {
        AppendOneRow(node.tables.inbox, InboxRow(id, peer, "", NotJson("knock: " + message), None));
      }
    case Open(_, _, _, _, _, _) =>
    case Proceed(n) =>
      if n in node.sessions && node.sessions[n].rest != [] {
        StatementOneRow(node.tables, node.sessions[n].rest[0]);
      }
    case Stop(_) =>
    case Invalidate =>
  }

  lemma StatementOneRow(tables: Tables, statement: Statement)
    ensures OneRowPerKey(Executed(tables, statement).inbox) <==> OneRowPerKey(tables.inbox)
  {
    if statement.Mark? {
      MarkOneRow(tables.inbox, statement.id, statement.decision);
    }
  }

  lemma AskOneRow(tables: Tables, request: Request, env: Env)
    requires Shaped(tables) && EntriesOk(tables.decisions)
    ensures OneRowPerKey(Reply(tables, request, env).0.inbox) <==> OneRowPerKey(tables.inbox) && !AskedAgain(tables, request, env)
  {
    ReplyParks(tables, request, env);
    if Parks(tables, request, env) {
      AppendOneRow(tables.inbox, ParkedRow(request, env.freshId));
    }
  }

  lemma AppendOneRow(inbox: seq<InboxRow>, row: InboxRow)
    requires !UsesId(inbox, row.id)
    ensures OneRowPerKey(inbox + [row]) <==> OneRowPerKey(inbox) && !(IsStatement(row) && KeyHasRow(inbox, KeyOfRow(row)))
  {
    var inbox' := inbox + [row];
    assert row in inbox' && forall a :: a in inbox ==> a in inbox';
    if IsStatement(row) && KeyHasRow(inbox, KeyOfRow(row)) {
      var twin :| twin in inbox && IsStatement(twin) && KeyOfRow(twin) == KeyOfRow(row);
      assert twin.id != row.id;
    }
  }

  predicate NoneAskedAgain(node: Node, event: Event) {
    event.Ask? ==> !AskedAgain(node.tables, event.request, event.env)
  }

  ghost predicate NeverAskedAgain(node: Node, events: seq<Event>)
    decreases |events|
  {
    events == [] || (NoneAskedAgain(node, events[0]) && NeverAskedAgain(Next(node, events[0]), events[1..]))
  }

  lemma {:induction false} OneRowInRun(node: Node, events: seq<Event>)
    requires Sound(node)
    ensures Sound(Run(node, events))
    ensures OneRowPerKey(Run(node, events).tables.inbox) <==> OneRowPerKey(node.tables.inbox) && NeverAskedAgain(node, events)
    decreases |events|
  {
    if events != [] {
      NextSound(node, events[0]);
      NextOneRow(node, events[0]);
      OneRowInRun(Next(node, events[0]), events[1..]);
    }
  }

  /** Over every run, whatever answers race, stop halfway or overwrite each other: two rows of one peer and
      shape exist at the end exactly when some request on the way was asked again. */
  lemma AskedOnceExactly(events: seq<Event>)
    ensures OneRowPerKey(Run(FRESH, events).tables.inbox) <==> NeverAskedAgain(FRESH, events)
  {
    OneRowInRun(FRESH, events);
  }

  // ----- knocks -----

  /** A knock is parked with its message unless one of the peer's is pending. */
  lemma KnockParks(tables: Tables, peer: string, id: string, message: string)
    requires forall row :: row in tables.inbox ==> row.id != id
    ensures KnockParked(tables, peer, id, message) ==
            if forall row :: row in tables.inbox && row.peer == peer && row.sql == "" ==> row.decision.Some?
            then tables.(inbox := tables.inbox + [InboxRow(id, peer, "", NotJson("knock: " + message), None)])
            else tables
  {
  }

  /** At most one knock a peer is pending. */
  predicate OnePendingKnock(inbox: seq<InboxRow>) {
    forall i, j :: 0 <= i < j < |inbox| && Waiting(inbox[i]) && Waiting(inbox[j]) ==> inbox[i].peer != inbox[j].peer
  }

  predicate Waiting(knock: InboxRow) {
    knock.sql == "" && knock.decision.None?
  }

  lemma MarkKeepsKnocks(inbox: seq<InboxRow>, id: string, decision: string)
    requires OnePendingKnock(inbox)
    ensures OnePendingKnock(MarkDecided(inbox, id, decision))
  {
  }

  lemma NextKeepsKnocks(node: Node, event: Event)
    requires Sound(node) && OnePendingKnock(node.tables.inbox)
    ensures OnePendingKnock(Next(node, event).tables.inbox)
  {
    match event
    case Ask(request, env) => ReplyParks(node.tables, request, env);
    case ParkKnock(peer, id, message) =>
      assert forall i :: 0 <= i < |node.tables.inbox| ==> node.tables.inbox[i] in node.tables.inbox;
    case Open(_, _, _, _, _, _) =>
    case Proceed(n) =>
      if n in node.sessions && node.sessions[n].rest != [] && node.sessions[n].rest[0].Mark? {
        MarkKeepsKnocks(node.tables.inbox, node.sessions[n].rest[0].id, node.sessions[n].rest[0].decision);
      }
    case Stop(_) =>
    case Invalidate =>
  }

  lemma {:induction false} RunKeepsKnocks(node: Node, events: seq<Event>)
    requires Sound(node) && OnePendingKnock(node.tables.inbox)
    ensures OnePendingKnock(Run(node, events).tables.inbox)
    decreases |events|
  {
    if events != [] {
      NextSound(node, events[0]);
      NextKeepsKnocks(node, events[0]);
      RunKeepsKnocks(Next(node, events[0]), events[1..]);
    }
  }

  /** Over every run at most one knock of a peer waits for the owner. */
  lemma EveryRunKeepsOneKnock(events: seq<Event>)
    ensures OnePendingKnock(Run(FRESH, events).tables.inbox)
  {
    RunKeepsKnocks(FRESH, events);
  }
}
