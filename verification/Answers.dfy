/** The two implementations of answering an `_inbox` row: `answer_inbox` on a direct
    connection and `inbox_answer_with` over the owner channel. */
module Answers {
  import opened AuthTypes
  import opened AuthTables
  import opened Fingerprint
  import opened Policy

  datatype AnswerError = NoSuchRow | AlreadyDecided(decision: string) | UnreadableParams | BadGrant(grant: string)

  datatype Answer =
    | Answered(peer: string, knock: bool, remembered: seq<string>, granted: seq<string>, denyPolicyWritten: bool)
    | Rejected(error: AnswerError)

  // ----- pieces both paths write -----

  function Verdict(allow: bool): string {
    if allow then "allow" else "deny"
  }

  /** The row with this request id (the table's primary key). */
  function FindRow(inbox: seq<InboxRow>, id: string): (row: Option<InboxRow>)
    ensures row.Some? ==> row.value in inbox && row.value.id == id
    ensures row.None? ==> forall r :: r in inbox ==> r.id != id
  {
    if inbox == [] then None
    else if inbox[0].id == id then Some(inbox[0])
    else FindRow(inbox[1..], id)
  }

  function Entry(id: string, decision: string): Remembered {
    Remembered(decision, Some("answered from _inbox " + id), "human", None)
  }

  /** The tables a remembered answer writes rules for. */
  function RememberedTables(parked: ParkedParams): seq<string> {
    Resources(parked.footprint)
  }

  function RememberRow(peer: string, table: string, action: string, decision: string, id: string): PolicyRow {
    PolicyRow(peer, table, action, decision, "remembered from inbox " + id)
  }

  function RememberRows(peer: string, tables: seq<string>, action: string, decision: string, id: string): (rows: seq<PolicyRow>)
    ensures |rows| == |tables|
  {
    seq(|tables|, i requires 0 <= i < |tables| => RememberRow(peer, tables[i], action, decision, id))
  }

  function AdmissionNote(id: string): string {
    "admitted via inbox " + id
  }

  function GrantRow(peer: string, table: string, action: string, id: string): PolicyRow {
    PolicyRow(peer, table, action, "allow", "granted with inbox answer " + id)
  }

  /** `split_once('=')`. */
  function SplitGrant(grant: string): Option<(string, string)> {
    if grant == "" then None
    else if grant[0] == '=' then Some(("", grant[1..]))
    else match SplitGrant(grant[1..])
      case None => None
      case Some((table, action)) => Some(([grant[0]] + table, action))
  }

  predicate WellFormed(grants: seq<string>) {
    forall i :: 0 <= i < |grants| ==> SplitGrant(grants[i]).Some?
  }

  // ----- the statements of an answer -----

  datatype Path = Direct | Channel

  /** One rule for each grant, up to the first malformed one. */
  function GrantPlan(peer: string, id: string, grants: seq<string>): seq<Statement> {
    if grants == [] then []
    else match SplitGrant(grants[0])
      case None => []
      case Some((table, action)) => [AddRuleIfAbsent(GrantRow(peer, table, action, id))] + GrantPlan(peer, id, grants[1..])
  }

  function RulePlan(rows: seq<PolicyRow>): (plan: seq<Statement>)
    ensures |plan| == |rows|
  {
    seq(|rows|, i requires 0 <= i < |rows| => AddRule(rows[i]))
  }

  /** The cache entry, then one rule for each remembered table. */
  function RecordPlan(row: InboxRow, decision: string, remember: bool): seq<Statement>
    requires row.params.Readable?
  {
    var parked := row.params.parked;
    [Record((row.peer, parked.fingerprint), Entry(row.id, decision))]
    + RulePlan(RememberRows(row.peer, RememberedIf(remember, parked), parked.action, decision, row.id))
  }

  function RememberedIf(remember: bool, parked: ParkedParams): seq<string> {
    if remember then RememberedTables(parked) else []
  }

  /** What is written after the row is marked, in order. */
  function AfterMark(path: Path, row: InboxRow, allow: bool, remember: bool, grants: seq<string>): seq<Statement> {
    var granting := if allow then GrantPlan(row.peer, row.id, grants) else [];
    if row.sql == "" then
      if allow then [Admit(row.peer, AdmissionNote(row.id))] + granting
      else if path == Channel then [AddRuleIfAbsent(KnockDenyRow(row.peer, row.id))]
      else []
    else if !row.params.Readable? then []
    else
      var recording := RecordPlan(row, Verdict(allow), remember);
      if path == Direct then recording + granting else granting + recording
  }

  /** The statements an answer executes, fixed by what it reads first; none when it is rejected there. */
  function Plan(path: Path, tables: Tables, id: string, allow: bool, remember: bool, grants: seq<string>): seq<Statement> {
    if !Answerable(tables, id) || (path == Channel && !WellFormed(grants)) then []
    else [Mark(id, Verdict(allow))] + AfterMark(path, FindRow(tables.inbox, id).value, allow, remember, grants)
  }

  // ----- the direct path -----

  /** `write_grants`: rules are inserted one by one until a grant without '='. */
  function GrantUntilBad(policy: seq<PolicyRow>, peer: string, id: string, grants: seq<string>): (seq<PolicyRow>, Option<string>)
    decreases |grants|
  {
    if grants == [] then (policy, None)
    else match SplitGrant(grants[0])
      case None => (policy, Some(grants[0]))
      case Some((table, action)) =>
        GrantUntilBad(InsertIfAbsent(policy, GrantRow(peer, table, action, id)), peer, id, grants[1..])
  }

  function WithGrants(tables: Tables, peer: string, id: string, grants: seq<string>, answer: Answer): (Tables, Answer)
    requires answer.Answered?
  {
    var (policy, bad) := GrantUntilBad(tables.policy, peer, id, grants);
    (tables.(policy := policy), if bad.Some? then Rejected(BadGrant(bad.value)) else answer.(granted := grants))
  }

  function DirectAnswer(tables: Tables, id: string, allow: bool, remember: bool, grants: seq<string>): (Tables, Answer) {
    var found := FindRow(tables.inbox, id);
    if found.None? then (tables, Rejected(NoSuchRow))
    else if found.value.decision.Some? then (tables, Rejected(AlreadyDecided(found.value.decision.value)))
    else
      var row := found.value;
      var decision := Verdict(allow);
      var marked := tables.(inbox := MarkDecided(tables.inbox, id, decision));
      if row.sql == "" then
        if allow then
          WithGrants(marked.(peers := Admitted(tables.peers, row.peer, AdmissionNote(id))), row.peer, id, grants,
                     Answered(row.peer, true, [], [], false))
        else (marked, Answered(row.peer, true, [], [], false))
      else if !row.params.Readable? then (tables, Rejected(UnreadableParams))
      else
        var parked := row.params.parked;
        var names := RememberedIf(remember, parked);
        var written := marked.(
          decisions := tables.decisions[(row.peer, parked.fingerprint) := Entry(id, decision)],
          policy := tables.policy + RememberRows(row.peer, names, parked.action, decision, id));
        var answer := Answered(row.peer, false, names, [], false);
        if allow then WithGrants(written, row.peer, id, grants, answer) else (written, answer)
  }

  method WriteGrants(conn: Connection, peer: string, id: string, grants: seq<string>)
      returns (granted: seq<string>, bad: Option<string>)
    modifies conn
    ensures conn.View() == old(conn.View()).(policy := conn.policy)
    ensures (conn.policy, bad) == GrantUntilBad(old(conn.policy), peer, id, grants)
    ensures bad.None? ==> granted == grants
    ensures conn.log == old(conn.log) + GrantPlan(peer, id, grants)
  {
    granted, bad := [], None;
    for i := 0 to |grants|
      invariant granted == grants[..i]
      invariant unchanged(conn`inbox) && unchanged(conn`decisions) && unchanged(conn`peers)
      invariant GrantUntilBad(old(conn.policy), peer, id, grants) == GrantUntilBad(conn.policy, peer, id, grants[i..])
      invariant old(conn.log) + GrantPlan(peer, id, grants) == conn.log + GrantPlan(peer, id, grants[i..])
    {
      assert grants[i..][0] == grants[i] && grants[i..][1..] == grants[i + 1..];
      match SplitGrant(grants[i]) {
        case None =>
          assert conn.log + [] == conn.log;
          bad := Some(grants[i]);
          return;
        case Some((table, action)) =>
          var statement := AddRuleIfAbsent(GrantRow(peer, table, action, id));
          Regroup(conn.log, statement, GrantPlan(peer, id, grants[i + 1..]));
          conn.Execute(statement);
          granted := granted + [grants[i]];
      }
    }
    assert conn.log + [] == conn.log;
  }

  lemma Regroup<T>(done: seq<T>, next: T, rest: seq<T>)
    ensures done + ([next] + rest) == (done + [next]) + rest
  {
  }

  lemma RegroupPlan(log: seq<Statement>, statement: Statement, first: seq<Statement>, second: seq<Statement>)
    ensures ((log + [statement]) + first) + second == log + ([statement] + (first + second))
    ensures (log + first) + second == log + (first + second)
  {
  }

  method WriteRemembered(conn: Connection, peer: string, names: seq<string>, action: string, decision: string, id: string)
      returns (remembered: seq<string>)
    modifies conn
    ensures conn.View() == old(conn.View()).(policy := old(conn.policy) + RememberRows(peer, names, action, decision, id))
    ensures remembered == names
    ensures conn.log == old(conn.log) + RulePlan(RememberRows(peer, names, action, decision, id))
  {
    remembered := [];
    ghost var rows := RememberRows(peer, names, action, decision, id);
    for i := 0 to |names|
      invariant remembered == names[..i]
      invariant unchanged(conn`inbox) && unchanged(conn`decisions) && unchanged(conn`peers)
      invariant conn.policy == old(conn.policy) + rows[..i]
      invariant conn.log == old(conn.log) + RulePlan(rows)[..i]
    {
      conn.Execute(AddRule(RememberRow(peer, names[i], action, decision, id)));
      remembered := remembered + [names[i]];
    }
  }

  /** The last writes of the owner channel and the middle ones of the direct path. */
  method WriteDecision(conn: Connection, row: InboxRow, decision: string, remember: bool) returns (remembered: seq<string>)
    requires row.params.Readable?
    modifies conn
    ensures remembered == RememberedIf(remember, row.params.parked)
    ensures var parked := row.params.parked;
            conn.View() == old(conn.View()).(
              decisions := old(conn.decisions)[(row.peer, parked.fingerprint) := Entry(row.id, decision)],
              policy := old(conn.policy) + RememberRows(row.peer, remembered, parked.action, decision, row.id))
    ensures conn.log == old(conn.log) + RecordPlan(row, decision, remember)
  {
    var parked := row.params.parked;
    var statement := Record((row.peer, parked.fingerprint), Entry(row.id, decision));
    conn.Execute(statement);
    remembered := [];
    if remember {
      remembered := WriteRemembered(conn, row.peer, RememberedTables(parked), parked.action, decision, row.id);
      Regroup(old(conn.log), statement, RulePlan(RememberRows(row.peer, remembered, parked.action, decision, row.id)));
    } else {
      assert conn.policy + RememberRows(row.peer, [], parked.action, decision, row.id) == conn.policy;
    }
  }

  /** `answer_inbox`, statement by statement. */
  method AnswerInbox(conn: Connection, id: string, allow: bool, remember: bool, grants: seq<string>) returns (answer: Answer)
    modifies conn
    ensures (conn.View(), answer) == DirectAnswer(old(conn.View()), id, allow, remember, grants)
    ensures conn.log == old(conn.log) + Plan(Direct, old(conn.View()), id, allow, remember, grants)
  {
    var found := FindRow(conn.inbox, id);
    if found.None? {
      return Rejected(NoSuchRow);
    }
    var row := found.value;
    if row.decision.Some? {
      return Rejected(AlreadyDecided(row.decision.value));
    }
    var decision := Verdict(allow);
    if row.sql != "" && !row.params.Readable? {
      return Rejected(UnreadableParams);
    }
    conn.Execute(Mark(id, decision));
    if row.sql == "" {
      var granted := [];
      if allow {
        conn.Execute(Admit(row.peer, AdmissionNote(id)));
        RegroupPlan(old(conn.log), Mark(id, decision), [Admit(row.peer, AdmissionNote(id))], GrantPlan(row.peer, id, grants));
        var bad;
        granted, bad := WriteGrants(conn, row.peer, id, grants);
        if bad.Some? {
          return Rejected(BadGrant(bad.value));
        }
      }
      return Answered(row.peer, true, [], granted, false);
    }
    var remembered := WriteDecision(conn, row, decision, remember);
    var granted := [];
    RegroupPlan(old(conn.log), Mark(id, decision), RecordPlan(row, decision, remember),
                if allow then GrantPlan(row.peer, id, grants) else []);
    if allow {
      var bad;
      granted, bad := WriteGrants(conn, row.peer, id, grants);
      if bad.Some? {
        return Rejected(BadGrant(bad.value));
      }
    }
    return Answered(row.peer, false, remembered, granted, false);
  }

  // ----- the owner-channel path -----

  datatype Grant = Grant(table: string, action: string, spelling: string)

  datatype ParsedGrants = Grants(grants: seq<Grant>) | Malformed(grant: string)

  function ParseGrants(grants: seq<string>): (parsed: ParsedGrants)
    ensures parsed.Grants? ==> |parsed.grants| == |grants|
  {
    if grants == [] then Grants([])
    else match SplitGrant(grants[0])
      case None => Malformed(grants[0])
      case Some((table, action)) =>
        match ParseGrants(grants[1..])
        case Grants(rest) => Grants([Grant(table, action, grants[0])] + rest)
        case Malformed(grant) => Malformed(grant)
  }

  function ApplyAll(policy: seq<PolicyRow>, peer: string, id: string, grants: seq<Grant>): seq<PolicyRow>
    decreases |grants|
  {
    if grants == [] then policy
    else ApplyAll(InsertIfAbsent(policy, GrantRow(peer, grants[0].table, grants[0].action, id)), peer, id, grants[1..])
  }

  function Spellings(grants: seq<Grant>): seq<string> {
    if grants == [] then [] else [grants[0].spelling] + Spellings(grants[1..])
  }

  function KnockDenyRow(peer: string, id: string): PolicyRow {
    PolicyRow(peer, "*", "knock", "deny", "denied from inbox " + id + "; delete this row to allow knocking again")
  }

  function ChannelAnswer(tables: Tables, id: string, allow: bool, remember: bool, grants: seq<string>): (Tables, Answer) {
    var found := FindRow(tables.inbox, id);
    if found.None? then (tables, Rejected(NoSuchRow))
    else if found.value.decision.Some? then (tables, Rejected(AlreadyDecided(found.value.decision.value)))
    else
      var row := found.value;
      var decision := Verdict(allow);
      var parsed := ParseGrants(grants);
      if parsed.Malformed? then (tables, Rejected(BadGrant(parsed.grant)))
      else if row.sql != "" && !row.params.Readable? then (tables, Rejected(UnreadableParams))
      else
        var marked := tables.(inbox := MarkDecided(tables.inbox, id, decision));
        var granting := if allow then parsed.grants else [];
        if row.sql == "" then
          if allow then
            (marked.(peers := Admitted(tables.peers, row.peer, AdmissionNote(id)),
                     policy := ApplyAll(tables.policy, row.peer, id, granting)),
             Answered(row.peer, true, [], Spellings(granting), false))
          else
            (marked.(policy := InsertIfAbsent(tables.policy, KnockDenyRow(row.peer, id))),
             Answered(row.peer, true, [], [], true))
        else
          var parked := row.params.parked;
          var names := RememberedIf(remember, parked);
          (marked.(
             decisions := tables.decisions[(row.peer, parked.fingerprint) := Entry(id, decision)],
             policy := ApplyAll(tables.policy, row.peer, id, granting)
                       + RememberRows(row.peer, names, parked.action, decision, id)),
           Answered(row.peer, false, names, Spellings(granting), false))
  }

  method ApplyGrants(conn: Connection, peer: string, id: string, grants: seq<Grant>) returns (granted: seq<string>)
    modifies conn
    ensures conn.View() == old(conn.View()).(policy := ApplyAll(old(conn.policy), peer, id, grants))
    ensures granted == Spellings(grants)
    ensures conn.log == old(conn.log) + ApplyPlan(peer, id, grants)
  {
    granted := [];
    for i := 0 to |grants|
      invariant granted + Spellings(grants[i..]) == Spellings(grants)
      invariant unchanged(conn`inbox) && unchanged(conn`decisions) && unchanged(conn`peers)
      invariant ApplyAll(old(conn.policy), peer, id, grants) == ApplyAll(conn.policy, peer, id, grants[i..])
      invariant old(conn.log) + ApplyPlan(peer, id, grants) == conn.log + ApplyPlan(peer, id, grants[i..])
    {
      assert grants[i..][0] == grants[i] && grants[i..][1..] == grants[i + 1..];
      var statement := AddRuleIfAbsent(GrantRow(peer, grants[i].table, grants[i].action, id));
      Regroup(conn.log, statement, ApplyPlan(peer, id, grants[i + 1..]));
      Regroup(granted, grants[i].spelling, Spellings(grants[i + 1..]));
      conn.Execute(statement);
      granted := granted + [grants[i].spelling];
    }
    assert granted + [] == granted && conn.log + [] == conn.log;
  }

  function ApplyPlan(peer: string, id: string, grants: seq<Grant>): seq<Statement> {
    if grants == [] then []
    else [AddRuleIfAbsent(GrantRow(peer, grants[0].table, grants[0].action, id))] + ApplyPlan(peer, id, grants[1..])
  }

  lemma {:induction false} ParsedPlanIsGrantPlan(peer: string, id: string, grants: seq<string>)
    requires ParseGrants(grants).Grants?
    ensures WellFormed(grants)
    ensures ApplyPlan(peer, id, ParseGrants(grants).grants) == GrantPlan(peer, id, grants)
  {
    if grants != [] {
      ParsedPlanIsGrantPlan(peer, id, grants[1..]);
      var parsed := ParseGrants(grants).grants;
      assert parsed[1..] == ParseGrants(grants[1..]).grants;
      assert forall i :: 0 < i < |grants| ==> grants[i] == grants[1..][i - 1];
    }
  }

  lemma ParsesIfWellFormed(grants: seq<string>)
    ensures ParseGrants(grants).Grants? <==> WellFormed(grants)
  {
    BadGrantStops([], "", "", grants);
  }

  /** What follows the mark of a knock: the durable denial, or the admission and its grants. */
  method SettleKnock(conn: Connection, row: InboxRow, allow: bool, grants: seq<Grant>) returns (granted: seq<string>)
    modifies conn
    ensures granted == if allow then Spellings(grants) else []
    ensures conn.View() ==
            if allow then old(conn.View()).(peers := Admitted(old(conn.peers), row.peer, AdmissionNote(row.id)),
                                            policy := ApplyAll(old(conn.policy), row.peer, row.id, grants))
            else old(conn.View()).(policy := InsertIfAbsent(old(conn.policy), KnockDenyRow(row.peer, row.id)))
    ensures conn.log == old(conn.log) +
            if allow then [Admit(row.peer, AdmissionNote(row.id))] + ApplyPlan(row.peer, row.id, grants)
            else [AddRuleIfAbsent(KnockDenyRow(row.peer, row.id))]
  {
    if !allow {
      conn.Execute(AddRuleIfAbsent(KnockDenyRow(row.peer, row.id)));
      return [];
    }
    conn.Execute(Admit(row.peer, AdmissionNote(row.id)));
    granted := ApplyGrants(conn, row.peer, row.id, grants);
    Regroup(old(conn.log), Admit(row.peer, AdmissionNote(row.id)), ApplyPlan(row.peer, row.id, grants));
  }

  /** What follows the mark of a statement: the grants, the cache entry and the remembered rules. */
  method SettleStatement(conn: Connection, row: InboxRow, allow: bool, remember: bool, grants: seq<Grant>)
      returns (remembered: seq<string>, granted: seq<string>)
    requires row.params.Readable?
    modifies conn
    ensures granted == if allow then Spellings(grants) else []
    ensures remembered == RememberedIf(remember, row.params.parked)
    ensures var parked := row.params.parked;
            conn.View() == old(conn.View()).(
              decisions := old(conn.decisions)[(row.peer, parked.fingerprint) := Entry(row.id, Verdict(allow))],
              policy := ApplyAll(old(conn.policy), row.peer, row.id, if allow then grants else [])
                        + RememberRows(row.peer, remembered, parked.action, Verdict(allow), row.id))
    ensures conn.log == old(conn.log) + (ApplyPlan(row.peer, row.id, if allow then grants else [])
                                         + RecordPlan(row, Verdict(allow), remember))
  {
    granted := [];
    if allow {
      granted := ApplyGrants(conn, row.peer, row.id, grants);
    }
    RegroupPlan(old(conn.log), Mark(row.id, ""), ApplyPlan(row.peer, row.id, if allow then grants else []),
                RecordPlan(row, Verdict(allow), remember));
    assert conn.View() == old(conn.View()).(policy := ApplyAll(old(conn.policy), row.peer, row.id, if allow then grants else []));
    remembered := WriteDecision(conn, row, Verdict(allow), remember);
  }

  /** `inbox_answer_with`, statement by statement; everything that can be rejected is rejected before the first. */
  method InboxAnswerWith(conn: Connection, id: string, allow: bool, remember: bool, grants: seq<string>) returns (answer: Answer)
    modifies conn
    ensures (conn.View(), answer) == ChannelAnswer(old(conn.View()), id, allow, remember, grants)
    ensures conn.log == old(conn.log) + Plan(Channel, old(conn.View()), id, allow, remember, grants)
  {
    var found := FindRow(conn.inbox, id);
    if found.None? {
      return Rejected(NoSuchRow);
    }
    var row := found.value;
    if row.decision.Some? {
      return Rejected(AlreadyDecided(row.decision.value));
    }
    var parsed := ParseGrants(grants);
    ParsesIfWellFormed(grants);
    if parsed.Malformed? {
      return Rejected(BadGrant(parsed.grant));
    }
    if row.sql != "" && !row.params.Readable? {
      return Rejected(UnreadableParams);
    }
    ParsedPlanIsGrantPlan(row.peer, id, grants);
    Regroup(conn.log, Mark(id, Verdict(allow)), AfterMark(Channel, row, allow, remember, grants));
    conn.Execute(Mark(id, Verdict(allow)));
    if row.sql == "" {
      var granted := SettleKnock(conn, row, allow, parsed.grants);
      return Answered(row.peer, true, [], granted, !allow);
    }
    var remembered, granted := SettleStatement(conn, row, allow, remember, parsed.grants);
    return Answered(row.peer, false, remembered, granted, false);
  }

  // ----- grants -----

  ghost function GrantRules(peer: string, grants: seq<string>): set<(string, string, string, string)> {
    set i | 0 <= i < |grants| && SplitGrant(grants[i]).Some? ::
      (peer, SplitGrant(grants[i]).value.0, SplitGrant(grants[i]).value.1, "allow")
  }

  lemma RulesOfConcat(a: seq<PolicyRow>, b: seq<PolicyRow>)
    ensures Rules(Rows(a + b)) == Rules(Rows(a)) + Rules(Rows(b))
  {
    assert Rows(a + b) == Rows(a) + Rows(b);
  }

  lemma InsertedRule(policy: seq<PolicyRow>, row: PolicyRow)
    ensures Rules(Rows(InsertIfAbsent(policy, row)))
            == Rules(Rows(policy)) + {(row.peer, row.table, row.action, row.effect)}
  {
    if HasRule(policy, row.peer, row.table, row.action, row.effect) {
      var twin :| twin in policy && twin.peer == row.peer && twin.table == row.table
                  && twin.action == row.action && twin.effect == row.effect;
      assert twin in Rows(policy);
    } else {
      RulesOfConcat(policy, [row]);
      assert Rows([row]) == {row};
    }
  }

  /** Well-formed grants add exactly their rules. */
  lemma {:induction false} GrantsAddTheirRules(policy: seq<PolicyRow>, peer: string, id: string, grants: seq<string>)
    requires WellFormed(grants)
    ensures var (granted, bad) := GrantUntilBad(policy, peer, id, grants);
            bad.None? && Rules(Rows(granted)) == Rules(Rows(policy)) + GrantRules(peer, grants)
    decreases |grants|
  {
    if grants != [] {
      var (table, action) := SplitGrant(grants[0]).value;
      var row := GrantRow(peer, table, action, id);
      InsertedRule(policy, row);
      GrantsAddTheirRules(InsertIfAbsent(policy, row), peer, id, grants[1..]);
      GrantRulesStep(peer, grants);
    }
  }

  /** Parsing first and applying afterwards writes the same rows. */
  lemma {:induction false} ParsedGrantsApplyAlike(policy: seq<PolicyRow>, peer: string, id: string, grants: seq<string>)
    requires WellFormed(grants)
    ensures ParseGrants(grants).Grants?
    ensures ApplyAll(policy, peer, id, ParseGrants(grants).grants) == GrantUntilBad(policy, peer, id, grants).0
    ensures Spellings(ParseGrants(grants).grants) == grants
    decreases |grants|
  {
    if grants != [] {
      var (table, action) := SplitGrant(grants[0]).value;
      ParsedGrantsApplyAlike(InsertIfAbsent(policy, GrantRow(peer, table, action, id)), peer, id, grants[1..]);
      var parsed := ParseGrants(grants).grants;
      assert parsed[1..] == ParseGrants(grants[1..]).grants;
      assert grants == [grants[0]] + grants[1..];
    }
  }

  lemma GrantRulesStep(peer: string, grants: seq<string>)
    requires grants != [] && WellFormed(grants)
    ensures GrantRules(peer, grants)
            == {(peer, SplitGrant(grants[0]).value.0, SplitGrant(grants[0]).value.1, "allow")} + GrantRules(peer, grants[1..])
  {
    forall rule | rule in GrantRules(peer, grants)
      ensures rule == (peer, SplitGrant(grants[0]).value.0, SplitGrant(grants[0]).value.1, "allow")
              || rule in GrantRules(peer, grants[1..])
    {
      var i :| 0 <= i < |grants| && rule == (peer, SplitGrant(grants[i]).value.0, SplitGrant(grants[i]).value.1, "allow");
      if i > 0 {
        assert grants[1..][i - 1] == grants[i];
      }
    }
    forall rule | rule in GrantRules(peer, grants[1..])
      ensures rule in GrantRules(peer, grants)
    {
      var i :| 0 <= i < |grants[1..]|
        && rule == (peer, SplitGrant(grants[1..][i]).value.0, SplitGrant(grants[1..][i]).value.1, "allow");
      assert grants[1..][i] == grants[i + 1];
    }
  }

  lemma {:induction false} BadGrantStops(policy: seq<PolicyRow>, peer: string, id: string, grants: seq<string>)
    ensures GrantUntilBad(policy, peer, id, grants).1.None? <==> WellFormed(grants)
    ensures ParseGrants(grants).Grants? <==> WellFormed(grants)
    decreases |grants|
  {
    if grants != [] {
      match SplitGrant(grants[0])
      case None =>
      case Some((table, action)) =>
        BadGrantStops(InsertIfAbsent(policy, GrantRow(peer, table, action, id)), peer, id, grants[1..]);
        assert forall i :: 0 < i < |grants| ==> grants[i] == grants[1..][i - 1];
    }
  }

  // ----- the two paths compared -----

  predicate Pending(tables: Tables, id: string) {
    var found := FindRow(tables.inbox, id);
    found.Some? && found.value.decision.None?
  }

  /** A row an answer can act on: pending, and readable when it is a statement. */
  predicate Answerable(tables: Tables, id: string) {
    Pending(tables, id) && (FindRow(tables.inbox, id).value.sql == "" || FindRow(tables.inbox, id).value.params.Readable?)
  }

  predicate IsKnock(tables: Tables, id: string)
    requires Pending(tables, id)
  {
    FindRow(tables.inbox, id).value.sql == ""
  }

  /** For a parked statement, and for an admitted knock, both paths leave the same decision, the same
      cache entry, the same admissions, and policy tables no request can tell apart. */
  lemma AnswerPathsAgree(tables: Tables, id: string, allow: bool, remember: bool, grants: seq<string>)
    requires Answerable(tables, id) && WellFormed(grants)
    requires !IsKnock(tables, id) || allow
    ensures var (direct, a) := DirectAnswer(tables, id, allow, remember, grants);
            var (channel, b) := ChannelAnswer(tables, id, allow, remember, grants);
            && a.Answered? && a == b
            && direct.inbox == channel.inbox && direct.decisions == channel.decisions && direct.peers == channel.peers
            && Rules(Rows(direct.policy)) == Rules(Rows(channel.policy))
            && forall request :: PolicyAnswer(Some(direct.policy), request) == PolicyAnswer(Some(channel.policy), request)
  {
    var row := FindRow(tables.inbox, id).value;
    var (direct, _) := DirectAnswer(tables, id, allow, remember, grants);
    var (channel, _) := ChannelAnswer(tables, id, allow, remember, grants);
    var granting := if allow then grants else [];
    ParsedGrantsApplyAlike(tables.policy, row.peer, id, grants);
    GrantsAddTheirRules(tables.policy, row.peer, id, grants);
    if row.sql != "" {
      var names := RememberedIf(remember, row.params.parked);
      var extra := RememberRows(row.peer, names, row.params.parked.action, Verdict(allow), id);
      GrantsAddTheirRules(tables.policy + extra, row.peer, id, grants);
      GrantOrder(tables.policy, extra, row.peer, id, granting);
    }
    forall request
      ensures PolicyAnswer(Some(direct.policy), request) == PolicyAnswer(Some(channel.policy), request)
    {
      RulesDetermineAnswer(direct.policy, channel.policy, request);
    }
  }

  /** Granting before or after the remembered rows leaves the same rules. */
  lemma GrantOrder(policy: seq<PolicyRow>, extra: seq<PolicyRow>, peer: string, id: string, grants: seq<string>)
    requires WellFormed(grants)
    ensures Rules(Rows(GrantUntilBad(policy + extra, peer, id, grants).0))
            == Rules(Rows(GrantUntilBad(policy, peer, id, grants).0 + extra))
  {
    GrantsAddTheirRules(policy + extra, peer, id, grants);
    GrantsAddTheirRules(policy, peer, id, grants);
    RulesOfConcat(policy, extra);
    RulesOfConcat(GrantUntilBad(policy, peer, id, grants).0, extra);
  }

  /** What the owner channel rejects, it rejects without a trace. */
  lemma ChannelRejectsIntact(tables: Tables, id: string, allow: bool, remember: bool, grants: seq<string>)
    ensures var (channel, answer) := ChannelAnswer(tables, id, allow, remember, grants);
            && (answer.Rejected? ==> channel == tables)
            && (answer.Rejected? <==> !Answerable(tables, id) || !WellFormed(grants))
  {
    ParsesIfWellFormed(grants);
  }

  /** The direct path fails halfway exactly on an allow with a malformed grant. */
  lemma DirectRejectsIntactUnlessBadGrant(tables: Tables, id: string, allow: bool, remember: bool, grants: seq<string>)
    ensures var (direct, answer) := DirectAnswer(tables, id, allow, remember, grants);
            && (answer.Rejected? && direct != tables <==> Answerable(tables, id) && allow && !WellFormed(grants))
            && (answer.Rejected? && direct == tables <==> !Answerable(tables, id))
  {
    if Answerable(tables, id) {
      var row := FindRow(tables.inbox, id).value;
      MarkChanges(tables.inbox, id, Verdict(allow));
      BadGrantStops(tables.policy, row.peer, id, grants);
      if row.sql != "" {
        var names := RememberedIf(remember, row.params.parked);
        var extra := RememberRows(row.peer, names, row.params.parked.action, Verdict(allow), id);
        BadGrantStops(tables.policy + extra, row.peer, id, grants);
      }
    }
  }

  lemma MarkChanges(inbox: seq<InboxRow>, id: string, decision: string)
    requires FindRow(inbox, id).Some? && FindRow(inbox, id).value.decision.None?
    ensures MarkDecided(inbox, id, decision) != inbox
  {
    var row := FindRow(inbox, id).value;
    var i :| 0 <= i < |inbox| && inbox[i] == row;
    assert MarkDecided(inbox, id, decision)[i].decision.Some?;
  }

  /** Denying a knock is where the paths part: the owner channel adds one durable rule, and the direct path none. */
  lemma KnockDenyDiffers(tables: Tables, id: string, remember: bool, grants: seq<string>)
    requires Pending(tables, id) && IsKnock(tables, id) && WellFormed(grants)
    ensures var peer := FindRow(tables.inbox, id).value.peer;
            var (direct, channel) := (DirectAnswer(tables, id, false, remember, grants).0,
                                      ChannelAnswer(tables, id, false, remember, grants).0);
            && direct.policy == tables.policy
            && Rules(Rows(channel.policy)) == Rules(Rows(tables.policy)) + {(peer, "*", "knock", "deny")}
            && (Rules(Rows(direct.policy)) == Rules(Rows(channel.policy)) <==> HasRule(tables.policy, peer, "*", "knock", "deny"))
            && (peer != "*" ==> Meaning(Rows(channel.policy), peer, "*", "knock") == Denied)
  {
    var peer := FindRow(tables.inbox, id).value.peer;
    var (channel, _) := ChannelAnswer(tables, id, false, remember, grants);
    ParsesIfWellFormed(grants);
    InsertedRule(tables.policy, KnockDenyRow(peer, id));
    RuleIsInRules(tables.policy, peer, "*", "knock", "deny");
    RuleIsInRules(channel.policy, peer, "*", "knock", "deny");
    if peer != "*" {
      var deny :| deny in channel.policy && deny.peer == peer && deny.table == "*" && deny.action == "knock" && deny.effect == "deny";
      assert Decisive(deny, Rows(channel.policy), peer, "*", "knock");
    }
  }

  lemma RuleIsInRules(policy: seq<PolicyRow>, peer: string, table: string, action: string, effect: string)
    ensures HasRule(policy, peer, table, action, effect) <==> (peer, table, action, effect) in Rules(Rows(policy))
  {
    if HasRule(policy, peer, table, action, effect) {
      var row :| row in policy && row.peer == peer && row.table == table && row.action == action && row.effect == effect;
      assert row in Rows(policy);
    }
  }

  /** The same inbox, cache and admissions, and policy tables no request can tell apart. */
  ghost predicate Alike(a: Tables, b: Tables) {
    a.inbox == b.inbox && a.decisions == b.decisions && a.peers == b.peers && Rules(Rows(a.policy)) == Rules(Rows(b.policy))
  }

  /** When the two paths leave the same: exactly when neither acts, or when the grants are well formed and the
      answer is not the first denial of the peer's knocks. */
  predicate PathsMeet(tables: Tables, id: string, allow: bool, grants: seq<string>) {
    || !Answerable(tables, id)
    || (WellFormed(grants)
        && (!IsKnock(tables, id) || allow || HasRule(tables.policy, FindRow(tables.inbox, id).value.peer, "*", "knock", "deny")))
  }

  lemma AnswerPathsAgreeExactly(tables: Tables, id: string, allow: bool, remember: bool, grants: seq<string>)
    ensures Alike(DirectAnswer(tables, id, allow, remember, grants).0, ChannelAnswer(tables, id, allow, remember, grants).0)
            <==> PathsMeet(tables, id, allow, grants)
  {
    ChannelRejectsIntact(tables, id, allow, remember, grants);
    DirectRejectsIntactUnlessBadGrant(tables, id, allow, remember, grants);
    if Answerable(tables, id) {
      MarkChanges(tables.inbox, id, Verdict(allow));
      if WellFormed(grants) {
        if IsKnock(tables, id) && !allow {
          KnockDenyDiffers(tables, id, remember, grants);
        } else {
          AnswerPathsAgree(tables, id, allow, remember, grants);
        }
      }
    }
  }

  // ----- whole answers and their statements -----

  lemma {:induction false} GrantsExecuted(tables: Tables, peer: string, id: string, grants: seq<string>)
    ensures ExecutedAll(tables, GrantPlan(peer, id, grants))
            == tables.(policy := GrantUntilBad(tables.policy, peer, id, grants).0)
    decreases |grants|
  {
    if grants != [] {
      match SplitGrant(grants[0])
      case None =>
      case Some((table, action)) =>
        var row := GrantRow(peer, table, action, id);
        var plan := GrantPlan(peer, id, grants);
        assert plan[0] == AddRuleIfAbsent(row) && plan[1..] == GrantPlan(peer, id, grants[1..]);
        GrantsExecuted(tables.(policy := InsertIfAbsent(tables.policy, row)), peer, id, grants[1..]);
    }
  }

  lemma {:induction false} RulesExecuted(tables: Tables, rows: seq<PolicyRow>)
    ensures ExecutedAll(tables, RulePlan(rows)) == tables.(policy := tables.policy + rows)
    decreases |rows|
  {
    if rows == [] {
      assert tables.policy + [] == tables.policy;
    } else {
      assert RulePlan(rows)[1..] == RulePlan(rows[1..]);
      RulesExecuted(tables.(policy := tables.policy + [rows[0]]), rows[1..]);
      assert (tables.policy + [rows[0]]) + rows[1..] == tables.policy + rows;
    }
  }

  lemma RecordExecuted(tables: Tables, row: InboxRow, decision: string, remember: bool)
    requires row.params.Readable?
    ensures var parked := row.params.parked;
            ExecutedAll(tables, RecordPlan(row, decision, remember)) == tables.(
              decisions := tables.decisions[(row.peer, parked.fingerprint) := Entry(row.id, decision)],
              policy := tables.policy + RememberRows(row.peer, RememberedIf(remember, parked), parked.action, decision, row.id))
  {
    var parked := row.params.parked;
    var statement := Record((row.peer, parked.fingerprint), Entry(row.id, decision));
    var rows := RememberRows(row.peer, RememberedIf(remember, parked), parked.action, decision, row.id);
    ExecutedConcat(tables, [statement], RulePlan(rows));
    ExecutedOne(tables, statement);
    RulesExecuted(Executed(tables, statement), rows);
  }

  lemma ExecutedOne(tables: Tables, statement: Statement)
    ensures ExecutedAll(tables, [statement]) == Executed(tables, statement)
  {
    assert [statement][1..] == [];
  }

  /** Executed without a break, the statements of an answer do what the answer does as a whole. */
  lemma PlanIsAnswer(path: Path, tables: Tables, id: string, allow: bool, remember: bool, grants: seq<string>)
    ensures ExecutedAll(tables, Plan(path, tables, id, allow, remember, grants)) ==
            if path == Direct then DirectAnswer(tables, id, allow, remember, grants).0
            else ChannelAnswer(tables, id, allow, remember, grants).0
  {
    ParsesIfWellFormed(grants);
    if Answerable(tables, id) && (path == Direct || WellFormed(grants)) {
      var row := FindRow(tables.inbox, id).value;
      var mark := Mark(id, Verdict(allow));
      ExecutedConcat(tables, [mark], AfterMark(path, row, allow, remember, grants));
      ExecutedOne(tables, mark);
      if row.sql == "" {
        KnockExecuted(path, Executed(tables, mark), row, allow, remember, grants);
      } else {
        StatementExecuted(path, Executed(tables, mark), row, allow, remember, grants);
      }
      if path == Channel {
        ParsedGrantsApplyAlike(tables.policy, row.peer, id, grants);
      }
    }
  }

  lemma KnockExecuted(path: Path, marked: Tables, row: InboxRow, allow: bool, remember: bool, grants: seq<string>)
    requires row.sql == ""
    ensures ExecutedAll(marked, AfterMark(path, row, allow, remember, grants)) ==
            if allow then marked.(peers := Admitted(marked.peers, row.peer, AdmissionNote(row.id)),
                                  policy := GrantUntilBad(marked.policy, row.peer, row.id, grants).0)
            else if path == Channel then marked.(policy := InsertIfAbsent(marked.policy, KnockDenyRow(row.peer, row.id)))
            else marked
  {
    if allow {
      var admit := Admit(row.peer, AdmissionNote(row.id));
      ExecutedConcat(marked, [admit], GrantPlan(row.peer, row.id, grants));
      ExecutedOne(marked, admit);
      GrantsExecuted(Executed(marked, admit), row.peer, row.id, grants);
    } else if path == Channel {
      ExecutedOne(marked, AddRuleIfAbsent(KnockDenyRow(row.peer, row.id)));
    }
  }

  lemma StatementExecuted(path: Path, marked: Tables, row: InboxRow, allow: bool, remember: bool, grants: seq<string>)
    requires row.sql != "" && row.params.Readable?
    ensures var parked := row.params.parked;
            var rows := RememberRows(row.peer, RememberedIf(remember, parked), parked.action, Verdict(allow), row.id);
            var granting := if allow then grants else [];
            ExecutedAll(marked, AfterMark(path, row, allow, remember, grants)) == marked.(
              decisions := marked.decisions[(row.peer, parked.fingerprint) := Entry(row.id, Verdict(allow))],
              policy := if path == Direct then GrantUntilBad(marked.policy + rows, row.peer, row.id, granting).0
                        else GrantUntilBad(marked.policy, row.peer, row.id, granting).0 + rows)
  {
    var granting := if allow then grants else [];
    var plan := GrantPlan(row.peer, row.id, granting);
    if path == Direct {
      ExecutedConcat(marked, RecordPlan(row, Verdict(allow), remember), plan);
      RecordExecuted(marked, row, Verdict(allow), remember);
      GrantsExecuted(ExecutedAll(marked, RecordPlan(row, Verdict(allow), remember)), row.peer, row.id, granting);
    } else {
      ExecutedConcat(marked, plan, RecordPlan(row, Verdict(allow), remember));
      GrantsExecuted(marked, row.peer, row.id, granting);
      RecordExecuted(ExecutedAll(marked, plan), row, Verdict(allow), remember);
    }
  }

  // ----- remembering -----

  /** A rule for this very peer, table and action that does not say allow. */
  predicate HasOtherRule(policy: seq<PolicyRow>, peer: string, table: string, action: string) {
    exists row :: row in policy && row.peer == peer && row.table == table && row.action == action && row.effect != "allow"
  }

  /** A rule for this very peer and table outranks every other: it allows unless a sibling rule does not. */
  lemma ExactRuleDecides(policy: seq<PolicyRow>, peer: string, table: string, action: string, rule: PolicyRow)
    requires peer != "*" && rule in policy && rule.peer == peer && rule.table == table && rule.action == action
    ensures Meaning(Rows(policy), peer, table, action) ==
            if HasOtherRule(policy, peer, table, action) then Denied else Allowed
  {
    forall row
      ensures Decisive(row, Rows(policy), peer, table, action) <==>
              row in policy && row.peer == peer && row.table == table && row.action == action
    {
      assert Decisive(rule, Rows(policy), peer, table, action);
    }
  }

  /** A remembered denial denies every footprint table from then on; a remembered allowance allows each of
      them unless a rule for that very peer, table and action still says otherwise. */
  lemma RememberedAnswerGoverns(tables: Tables, id: string, allow: bool, grants: seq<string>, table: string)
    requires Answerable(tables, id) && !IsKnock(tables, id) && WellFormed(grants)
    requires FindRow(tables.inbox, id).value.peer != "*"
    requires table in RememberedTables(FindRow(tables.inbox, id).value.params.parked)
    ensures var row := FindRow(tables.inbox, id).value;
            var action := row.params.parked.action;
            var after := DirectAnswer(tables, id, allow, true, grants).0;
            Meaning(Rows(after.policy), row.peer, table, action)
            == if allow && !HasOtherRule(tables.policy, row.peer, table, action) then Allowed else Denied
  {
    var row := FindRow(tables.inbox, id).value;
    var parked := row.params.parked;
    var names := RememberedTables(parked);
    var extra := RememberRows(row.peer, names, parked.action, Verdict(allow), id);
    var written := tables.policy + extra;
    var after := DirectAnswer(tables, id, allow, true, grants).0;
    var granting := if allow then grants else [];
    forall any: PolicyRow
      ensures any in written ==> any in GrantUntilBad(written, row.peer, id, granting).0
      ensures any in GrantUntilBad(written, row.peer, id, granting).0 ==> any in written || any.effect == "allow"
    {
      GrantsOnlyAddAllows(written, row.peer, id, granting, any);
    }
    BadGrantStops(written, row.peer, id, grants);
    assert after.policy == GrantUntilBad(written, row.peer, id, granting).0;
    var k :| 0 <= k < |names| && names[k] == table;
    var rule := RememberRow(row.peer, table, parked.action, Verdict(allow), id);
    assert extra[k] == rule && rule in written;
    ExactRuleDecides(after.policy, row.peer, table, parked.action, rule);
  }

  /** After a remembered answer, by either path, the policy tier answers every request of that peer and action on
      those tables without asking: denied after a denial, allowed after an allowance unless a rule for that very
      peer, action and one of its tables says otherwise. */
  lemma RememberedAnswerGovernsRequests(path: Path, tables: Tables, id: string, allow: bool, grants: seq<string>, request: Request)
    requires Answerable(tables, id) && !IsKnock(tables, id) && WellFormed(grants)
    requires var row := FindRow(tables.inbox, id).value;
             && row.peer != "*" && request.peer == row.peer && request.action == row.params.parked.action
             && !request.footprint.HasDenied()
             && forall t :: t in Resources(request.footprint) ==> t in RememberedTables(row.params.parked)
    ensures var after := ExecutedAll(tables, Plan(path, tables, id, allow, true, grants));
            var answer := PolicyAnswer(Some(after.policy), request);
            var contradicted := exists t :: t in Resources(request.footprint)
                                  && HasOtherRule(tables.policy, request.peer, t, request.action);
            if allow && !contradicted then answer == Allow else answer.Deny?
  {
    var direct := DirectAnswer(tables, id, allow, true, grants).0;
    PlanIsAnswer(path, tables, id, allow, true, grants);
    AnswerPathsAgree(tables, id, allow, true, grants);
    FootprintMeaning(direct.policy, request);
    forall t | t in Resources(request.footprint)
      ensures Meaning(Rows(direct.policy), request.peer, t, request.action)
              == if allow && !HasOtherRule(tables.policy, request.peer, t, request.action) then Allowed else Denied
    {
      RememberedAnswerGoverns(tables, id, allow, grants, t);
    }
    assert Resources(request.footprint)[0] in Resources(request.footprint);
  }

  lemma InsertOnlyAdds(policy: seq<PolicyRow>, row: PolicyRow, any: PolicyRow)
    ensures any in policy ==> any in InsertIfAbsent(policy, row)
    ensures any in InsertIfAbsent(policy, row) ==> any in policy || any == row
  {
  }

  /** Grants drop no row, and add none but allow rows. */
  lemma {:induction false} GrantsOnlyAddAllows(policy: seq<PolicyRow>, peer: string, id: string, grants: seq<string>, any: PolicyRow)
    ensures any in policy ==> any in GrantUntilBad(policy, peer, id, grants).0
    ensures any in GrantUntilBad(policy, peer, id, grants).0 ==> any in policy || any.effect == "allow"
    decreases |grants|
  {
    if grants != [] {
      match SplitGrant(grants[0])
      case None =>
      case Some((table, action)) =>
        var row := GrantRow(peer, table, action, id);
        InsertOnlyAdds(policy, row, any);
        GrantsOnlyAddAllows(InsertIfAbsent(policy, row), peer, id, grants[1..], any);
    }
  }

  /** Only the first '=' of a grant separates table from action. */
  lemma {:induction false} SplitGrantAtFirst(table: string, action: string)
    requires '=' !in table
    ensures SplitGrant(table + "=" + action) == Some((table, action))
  {
    var grant := table + "=" + action;
    if table == "" {
      assert grant[1..] == action;
    } else {
      assert grant[1..] == table[1..] + "=" + action;
      SplitGrantAtFirst(table[1..], action);
      assert [table[0]] + table[1..] == table;
    }
  }

  /** Granting what an identical rule already allows writes nothing; granting it first writes it. */
  lemma GrantOnce(peer: string, id: string, table: string, action: string, rule: PolicyRow)
    requires '=' !in table && rule.peer == peer && rule.table == table && rule.action == action && rule.effect == "allow"
    ensures GrantUntilBad([rule], peer, id, [table + "=" + action]) == ([rule], None)
    ensures ParseGrants([table + "=" + action]) == Grants([Grant(table, action, table + "=" + action)])
    ensures |ApplyAll([], peer, id, [Grant(table, action, table + "=" + action)])| == 1
  {
    var grant := table + "=" + action;
    SplitGrantAtFirst(table, action);
    assert [rule][0] == rule && HasRule([rule], peer, table, action, "allow");
    assert [grant][1..] == [];
    assert GrantUntilBad([rule], peer, id, [grant]) == GrantUntilBad([rule], peer, id, []);
    assert ApplyAll([], peer, id, [Grant(table, action, grant)]) == [GrantRow(peer, table, action, id)];
  }

  /** Equal meaning, not equal rows: a table both remembered and granted gets one row here, two there. */
  lemma RowCountsMayDiffer(tables: Tables, id: string, table: string)
    requires Answerable(tables, id) && !IsKnock(tables, id) && tables.policy == [] && '=' !in table
    requires RememberedTables(FindRow(tables.inbox, id).value.params.parked) == [table]
    ensures var grants := [table + "=" + FindRow(tables.inbox, id).value.params.parked.action];
            && |DirectAnswer(tables, id, true, true, grants).0.policy| == 1
            && |ChannelAnswer(tables, id, true, true, grants).0.policy| == 2
  {
    var row := FindRow(tables.inbox, id).value;
    var action := row.params.parked.action;
    var remembered := RememberRow(row.peer, table, action, "allow", id);
    assert RememberRows(row.peer, [table], action, "allow", id) == [remembered];
    assert tables.policy + [remembered] == [remembered];
    GrantOnce(row.peer, id, table, action, remembered);
  }
}
