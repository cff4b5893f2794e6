/** What an answer leaves in each table and what it reports, on either path, in the tables' own terms. */
module AnswerEffects {
  import opened AuthTypes
  import opened AuthTables
  import opened Fingerprint
  import opened Policy
  import opened Tiers
  import opened Answers

  /** An answer by either path. */
  function AnswerBy(path: Path, tables: Tables, id: string, allow: bool, remember: bool, grants: seq<string>): (Tables, Answer) {
    match path
    case Direct => DirectAnswer(tables, id, allow, remember, grants)
    case Channel => ChannelAnswer(tables, id, allow, remember, grants)
  }

  /** The row an answer names, when it can be answered: pending, and readable unless a knock. */
  predicate Waits(tables: Tables, id: string, row: InboxRow) {
    FindRow(tables.inbox, id) == Some(row) && row.decision.None? && (row.sql == "" || row.params.Readable?)
  }

  predicate HasEquals(grants: seq<string>) {
    forall i :: 0 <= i < |grants| ==> '=' in grants[i]
  }

  /** A grant is well formed exactly when it has an equals sign. */
  lemma {:induction false} SplitsAtEquals(grant: string)
    ensures SplitGrant(grant).Some? <==> '=' in grant
  {
    if grant != "" {
      SplitsAtEquals(grant[1..]);
      assert '=' in grant <==> grant[0] == '=' || '=' in grant[1..];
    }
  }

  lemma EqualsAreWellFormed(grants: seq<string>)
    ensures HasEquals(grants) <==> WellFormed(grants)
  {
    forall i | 0 <= i < |grants| ensures SplitGrant(grants[i]).Some? <==> '=' in grants[i] {
      SplitsAtEquals(grants[i]);
    }
  }

  /** The row is decided as answered, and no other. */
  lemma AnswerMarksRow(path: Path, tables: Tables, id: string, row: InboxRow, allow: bool, remember: bool, grants: seq<string>)
    requires Waits(tables, id, row) && HasEquals(grants)
    ensures var inbox' := AnswerBy(path, tables, id, allow, remember, grants).0.inbox;
            && |inbox'| == |tables.inbox|
            && forall i :: 0 <= i < |tables.inbox| ==>
                 (tables.inbox[i].id == id ==> inbox'[i] == tables.inbox[i].(decision := Some(if allow then "allow" else "deny")))
                 && (tables.inbox[i].id != id ==> inbox'[i] == tables.inbox[i])
  {
    EqualsAreWellFormed(grants);
    ParsesIfWellFormed(grants);
  }

  /** Allowing a knock admits the peer, once, under this row's note; nothing else touches the peers. */
  lemma KnockAdmission(path: Path, tables: Tables, id: string, row: InboxRow, allow: bool, remember: bool, grants: seq<string>)
    requires Waits(tables, id, row) && HasEquals(grants)
    ensures var peers' := AnswerBy(path, tables, id, allow, remember, grants).0.peers;
            && (row.sql == "" && allow ==> row.peer in peers')
            && (row.sql == "" && allow && row.peer !in tables.peers ==>
                  peers' == tables.peers[row.peer := "admitted via inbox " + id])
            && (row.sql != "" || !allow || row.peer in tables.peers ==> peers' == tables.peers)
  {
    EqualsAreWellFormed(grants);
    ParsesIfWellFormed(grants);
  }

  /** A statement's answer is cached under its peer and fingerprint for good; a knock's never is. */
  lemma AnswerIsCached(path: Path, tables: Tables, id: string, row: InboxRow, allow: bool, remember: bool, grants: seq<string>)
    requires Waits(tables, id, row) && HasEquals(grants)
    ensures var decisions' := AnswerBy(path, tables, id, allow, remember, grants).0.decisions;
            if row.sql == "" then decisions' == tables.decisions
            else decisions' == tables.decisions[(row.peer, row.params.parked.fingerprint) :=
                   Remembered(if allow then "allow" else "deny", Some("answered from _inbox " + id), "human", None)]
  {
    EqualsAreWellFormed(grants);
    ParsesIfWellFormed(grants);
  }

  /** Remembering writes a rule of the answer's effect for every table of the footprint, or for `*` when it has none. */
  lemma RememberedTablesGetRules(path: Path, tables: Tables, id: string, row: InboxRow, allow: bool, grants: seq<string>)
    requires Waits(tables, id, row) && row.sql != "" && HasEquals(grants)
    ensures var policy' := AnswerBy(path, tables, id, allow, true, grants).0.policy;
            var uses, action := row.params.parked.footprint.tables, row.params.parked.action;
            var effect, note := if allow then "allow" else "deny", "remembered from inbox " + id;
            && (forall i :: 0 <= i < |uses| ==> PolicyRow(row.peer, uses[i].table, action, effect, note) in policy')
            && (uses == [] ==> PolicyRow(row.peer, "*", action, effect, note) in policy')
  {
    EqualsAreWellFormed(grants);
    ParsesIfWellFormed(grants);
    var parked := row.params.parked;
    var names := RememberedTables(parked);
    var rows := RememberRows(row.peer, names, parked.action, Verdict(allow), id);
    var policy' := AnswerBy(path, tables, id, allow, true, grants).0.policy;
    RememberedRowsStay(path, tables, id, row, allow, grants, rows);
    forall i | 0 <= i < |names|
      ensures PolicyRow(row.peer, names[i], parked.action, if allow then "allow" else "deny", "remembered from inbox " + id) in policy'
    {
      assert rows[i] in policy';
    }
    var uses := parked.footprint.tables;
    assert uses != [] ==> |names| == |uses| && forall i :: 0 <= i < |uses| ==> names[i] == uses[i].table;
    assert uses == [] ==> |names| == 1 && names[0] == "*";
  }

  lemma RememberedRowsStay(path: Path, tables: Tables, id: string, row: InboxRow, allow: bool, grants: seq<string>, rows: seq<PolicyRow>)
    requires Waits(tables, id, row) && row.sql != "" && WellFormed(grants) && ParseGrants(grants).Grants?
    requires rows == RememberRows(row.peer, RememberedTables(row.params.parked), row.params.parked.action, Verdict(allow), id)
    ensures forall i :: 0 <= i < |rows| ==> rows[i] in AnswerBy(path, tables, id, allow, true, grants).0.policy
  {
    var after := AnswerBy(path, tables, id, allow, true, grants).0;
    forall i | 0 <= i < |rows| ensures rows[i] in after.policy {
      if path == Direct && allow {
        assert rows[i] in tables.policy + rows;
        GrantsOnlyAddAllows(tables.policy + rows, row.peer, id, grants, rows[i]);
      }
    }
  }

  /** Without remembering and without grants no statement's answer touches the policy. */
  lemma PlainAnswerWritesNoRule(path: Path, tables: Tables, id: string, row: InboxRow, allow: bool, grants: seq<string>)
    requires Waits(tables, id, row) && row.sql != "" && HasEquals(grants) && (allow ==> grants == [])
    ensures AnswerBy(path, tables, id, allow, false, grants).0.policy == tables.policy
  {
    EqualsAreWellFormed(grants);
    ParsesIfWellFormed(grants);
    assert tables.policy + [] == tables.policy;
  }

  /** Each grant `table=action` of an allowing answer becomes an allow rule for the peer; a denying answer grants nothing. */
  lemma GrantsBecomeRules(path: Path, tables: Tables, id: string, row: InboxRow, allow: bool, remember: bool, grants: seq<string>,
                          table: string, action: string)
    requires Waits(tables, id, row) && HasEquals(grants) && '=' !in table && (table + "=" + action) in grants && allow
    ensures exists rule :: rule in AnswerBy(path, tables, id, allow, remember, grants).0.policy
              && rule.peer == row.peer && rule.table == table && rule.action == action && rule.effect == "allow"
  {
    SplitGrantAtFirst(table, action);
    RulesAfterAnswer(path, tables, id, row, allow, remember, grants);
    EqualsAreWellFormed(grants);
    var i :| 0 <= i < |grants| && grants[i] == table + "=" + action;
    var after := AnswerBy(path, tables, id, allow, remember, grants).0;
    assert (row.peer, table, action, "allow") in GrantRules(row.peer, grants);
    assert (row.peer, table, action, "allow") in Rules(Rows(after.policy));
  }

  /** What a finished answer reports. */
  lemma AnswerReports(path: Path, tables: Tables, id: string, row: InboxRow, allow: bool, remember: bool, grants: seq<string>)
    requires Waits(tables, id, row) && HasEquals(grants)
    ensures var answer := AnswerBy(path, tables, id, allow, remember, grants).1;
            && answer.Answered? && answer.peer == row.peer && (answer.knock <==> row.sql == "")
            && answer.granted == (if allow then grants else [])
            && (answer.denyPolicyWritten <==> path == Channel && row.sql == "" && !allow)
            && (row.sql == "" || !remember ==> answer.remembered == [])
            && (row.sql != "" && remember ==>
                  var uses := row.params.parked.footprint.tables;
                  && (uses == [] ==> answer.remembered == ["*"])
                  && (uses != [] ==> |answer.remembered| == |uses|
                                     && forall i :: 0 <= i < |uses| ==> answer.remembered[i] == uses[i].table))
  {
    EqualsAreWellFormed(grants);
    ParsesIfWellFormed(grants);
    ParsedGrantsApplyAlike(tables.policy, row.peer, id, grants);
    BadGrantStops(tables.policy, row.peer, id, grants);
    if row.sql != "" {
      var extra := RememberRows(row.peer, RememberedIf(remember, row.params.parked), row.params.parked.action, Verdict(allow), id);
      BadGrantStops(tables.policy + extra, row.peer, id, grants);
    }
  }

  /** `bad` is the first grant without an equals sign. */
  predicate FirstBad(grants: seq<string>, k: nat) {
    k < |grants| && '=' !in grants[k] && HasEquals(grants[..k])
  }

  lemma {:induction false} StopsAtFirstBad(policy: seq<PolicyRow>, peer: string, id: string, grants: seq<string>, k: nat)
    requires FirstBad(grants, k)
    ensures ParseGrants(grants) == Malformed(grants[k])
    ensures GrantUntilBad(policy, peer, id, grants) == (GrantUntilBad(policy, peer, id, grants[..k]).0, Some(grants[k]))
    decreases k
  {
    SplitsAtEquals(grants[0]);
    if k > 0 {
      assert grants[..k][0] == grants[0] && grants[..k][1..] == grants[1..][..k - 1];
      var good, rest := grants[..k], grants[1..][..k - 1];
      forall i | 0 <= i < |rest| ensures '=' in rest[i] {
        assert good[i + 1] == rest[i];
      }
      var (table, action) := SplitGrant(grants[0]).value;
      StopsAtFirstBad(InsertIfAbsent(policy, GrantRow(peer, table, action, id)), peer, id, grants[1..], k - 1);
    }
  }

  /** Why an answer is rejected: no such row, decided already; then the owner channel looks at the grants before
      the parameters, and the direct path at the parameters first and at the grants of an allow last. */
  lemma RejectionSays(tables: Tables, id: string, allow: bool, remember: bool, grants: seq<string>, k: nat)
    requires HasEquals(grants) || FirstBad(grants, k)
    ensures var found := FindRow(tables.inbox, id);
            var direct, channel := DirectAnswer(tables, id, allow, remember, grants).1, ChannelAnswer(tables, id, allow, remember, grants).1;
            && (found.None? ==> direct == channel == Rejected(NoSuchRow))
            && (found.Some? && found.value.decision.Some? ==>
                  direct == channel == Rejected(AlreadyDecided(found.value.decision.value)))
            && (found.Some? && found.value.decision.None? ==>
                  var unreadable := found.value.sql != "" && !found.value.params.Readable?;
                  && (!HasEquals(grants) ==> channel == Rejected(BadGrant(grants[k])))
                  && (HasEquals(grants) && unreadable ==> channel == Rejected(UnreadableParams))
                  && (unreadable ==> direct == Rejected(UnreadableParams))
                  && (!unreadable && allow && !HasEquals(grants) ==> direct == Rejected(BadGrant(grants[k]))))
  {
    EqualsAreWellFormed(grants);
    ParsesIfWellFormed(grants);
    if !HasEquals(grants) {
      var found := FindRow(tables.inbox, id);
      if found.Some? {
        var row := found.value;
        StopsAtFirstBad(tables.policy, row.peer, id, grants, k);
        if row.sql != "" && row.params.Readable? {
          var extra := RememberRows(row.peer, RememberedIf(remember, row.params.parked), row.params.parked.action, Verdict(allow), id);
          StopsAtFirstBad(tables.policy + extra, row.peer, id, grants, k);
        }
      }
    }
  }

  // ----- from the request to its answer -----

  lemma {:induction false} FindAppended(inbox: seq<InboxRow>, row: InboxRow)
    requires forall r :: r in inbox ==> r.id != row.id
    ensures FindRow(inbox + [row], row.id) == Some(row)
  {
    if inbox == [] {
      assert inbox + [row] == [row];
    } else {
      assert (inbox + [row])[1..] == inbox[1..] + [row];
      FindAppended(inbox[1..], row);
    }
  }

  /** A request is parked and its row answered; from then on the cache answers the same request as the owner did. */
  lemma AnsweredRequestIsServed(path: Path, tables: Tables, request: Request, id: string, allow: bool, remember: bool,
                                grants: seq<string>, now: real)
    requires request.action != "knock" && request.statement != "" && request.footprint.denied == [] && HasEquals(grants)
    requires forall row :: row in tables.inbox ==> row.id != id && (row.sql != "" && row.decision.None? ==> row.peer != request.peer)
    ensures var parked := HumanAnswer(tables, request, id, Healthy).0;
            var after := AnswerBy(path, parked, id, allow, remember, grants).0;
            CacheAnswer(after, request, now, false) == if allow then Allow else Deny("answered from _inbox " + id)
  {
    ParkedInFull(tables, request, id);
    var parked := HumanAnswer(tables, request, id, Healthy).0;
    var row := ParkedRow(request, id);
    FindAppended(tables.inbox, row);
    AnswerIsCached(path, parked, id, row, allow, remember, grants);
  }

  /** And when the owner asked for the answer to be remembered, so does the policy tier, on every table the request
      uses: an allowance unless a rule for the peer, the action and one of these tables says otherwise. */
  lemma RememberedRequestIsDecided(path: Path, tables: Tables, request: Request, id: string, allow: bool, grants: seq<string>)
    requires request.action != "knock" && request.statement != "" && request.footprint.denied == [] && HasEquals(grants)
    requires forall row :: row in tables.inbox ==> row.id != id && (row.sql != "" && row.decision.None? ==> row.peer != request.peer)
    requires request.peer != "*" && request.footprint.tables != []
    ensures var parked := HumanAnswer(tables, request, id, Healthy).0;
            var after := AnswerBy(path, parked, id, allow, true, grants).0;
            var uses := request.footprint.tables;
            var contradicted := !forall i :: 0 <= i < |uses| ==> !HasOtherRule(tables.policy, request.peer, uses[i].table, request.action);
            if allow && !contradicted then PolicyAnswer(Some(after.policy), request) == Allow
            else PolicyAnswer(Some(after.policy), request).Deny?
  {
    ParkedInFull(tables, request, id);
    EqualsAreWellFormed(grants);
    var parked := HumanAnswer(tables, request, id, Healthy).0;
    FindAppended(tables.inbox, ParkedRow(request, id));
    RememberedAnswerGovernsRequests(path, parked, id, allow, grants, request);
    PlanIsAnswer(path, parked, id, allow, true, grants);
    var names, uses := Resources(request.footprint), request.footprint.tables;
    assert |names| == |uses| && forall i :: 0 <= i < |uses| ==> names[i] == uses[i].table && names[i] in names;
  }

  // ----- the rules, all of them -----

  /** The rules a remembered answer adds: one for each table of the footprint, or for `*`. */
  ghost function RememberedRules(row: InboxRow, allow: bool): set<(string, string, string, string)>
    requires row.params.Readable?
  {
    var uses, effect := row.params.parked.footprint.tables, if allow then "allow" else "deny";
    if uses == [] then {(row.peer, "*", row.params.parked.action, effect)}
    else set i | 0 <= i < |uses| :: (row.peer, uses[i].table, row.params.parked.action, effect)
  }

  lemma RememberedRowsRules(row: InboxRow, allow: bool, id: string)
    requires row.params.Readable?
    ensures var parked := row.params.parked;
            Rules(Rows(RememberRows(row.peer, RememberedTables(parked), parked.action, Verdict(allow), id))) == RememberedRules(row, allow)
  {
    var parked := row.params.parked;
    var names, uses := RememberedTables(parked), parked.footprint.tables;
    var rows := RememberRows(row.peer, names, parked.action, Verdict(allow), id);
    assert uses != [] ==> |names| == |uses| && forall i :: 0 <= i < |uses| ==> names[i] == uses[i].table;
    assert uses == [] ==> names == ["*"];
    forall rule | rule in RememberedRules(row, allow) ensures rule in Rules(Rows(rows)) {
      if uses == [] {
        assert rows[0] in Rows(rows);
      } else {
        var i :| 0 <= i < |uses| && rule == (row.peer, uses[i].table, parked.action, Verdict(allow));
        assert rows[i] in Rows(rows);
      }
    }
    forall rule | rule in Rules(Rows(rows)) ensures rule in RememberedRules(row, allow) {
      var some :| some in rows && rule == (some.peer, some.table, some.action, some.effect);
      var i :| 0 <= i < |rows| && rows[i] == some;
      assert uses != [] ==> rule == (row.peer, uses[i].table, parked.action, Verdict(allow));
    }
  }

  /** An answer adds exactly these rules and drops none: those of its grants when it allows, those of the footprint
      when a statement's answer is to be remembered, and on the owner channel the denial of a denied peer's knocks. */
  lemma RulesAfterAnswer(path: Path, tables: Tables, id: string, row: InboxRow, allow: bool, remember: bool, grants: seq<string>)
    requires Waits(tables, id, row) && HasEquals(grants)
    ensures var before, after := Rules(Rows(tables.policy)), Rules(Rows(AnswerBy(path, tables, id, allow, remember, grants).0.policy));
            after == before + (if allow then GrantRules(row.peer, grants) else {})
                     + (if row.sql != "" && remember then RememberedRules(row, allow) else {})
                     + (if path == Channel && row.sql == "" && !allow then {(row.peer, "*", "knock", "deny")} else {})
  {
    EqualsAreWellFormed(grants);
    ParsesIfWellFormed(grants);
    var (direct, _) := DirectAnswer(tables, id, allow, remember, grants);
    if row.sql == "" {
      GrantsAddTheirRules(tables.policy, row.peer, id, grants);
      if !allow {
        KnockDenyDiffers(tables, id, remember, grants);
      } else {
        AnswerPathsAgree(tables, id, allow, remember, grants);
      }
    } else {
      AnswerPathsAgree(tables, id, allow, remember, grants);
      StatementRules(tables, id, row, allow, remember, grants);
    }
  }

  lemma StatementRules(tables: Tables, id: string, row: InboxRow, allow: bool, remember: bool, grants: seq<string>)
    requires Waits(tables, id, row) && row.sql != "" && WellFormed(grants)
    ensures Rules(Rows(DirectAnswer(tables, id, allow, remember, grants).0.policy)) ==
            Rules(Rows(tables.policy)) + (if allow then GrantRules(row.peer, grants) else {})
            + (if remember then RememberedRules(row, allow) else {})
  {
    var parked := row.params.parked;
    var rows := RememberRows(row.peer, RememberedIf(remember, parked), parked.action, Verdict(allow), id);
    RulesOfConcat(tables.policy, rows);
    GrantsAddTheirRules(tables.policy + rows, row.peer, id, grants);
    if remember {
      RememberedRowsRules(row, allow, id);
    } else {
      assert rows == [];
    }
  }
}
