/** The `_policy` table and its tier: most-specific-first resolution. */
module Policy {
  import opened AuthTypes

  datatype PolicyRow = PolicyRow(peer: string, table: string, action: string, effect: string, note: string)

  /** How one resource resolves. */
  datatype Resolved = Allowed | Denied | Unmatched

  predicate Matches(row: PolicyRow, peer: string, table: string, action: string) {
    && row.action == action
    && (row.peer == peer || row.peer == "*")
    && (row.table == table || row.table == "*")
  }

  function Score(row: PolicyRow): nat {
    (if row.peer != "*" then 2 else 0) + (if row.table != "*" then 1 else 0)
  }

  // ----- the order-free meaning -----

  /** `row` matches and no matching row is more specific. */
  ghost predicate Decisive(row: PolicyRow, rows: set<PolicyRow>, peer: string, table: string, action: string) {
    && row in rows && Matches(row, peer, table, action)
    && forall other | other in rows && Matches(other, peer, table, action) :: Score(other) <= Score(row)
  }

  /** A resource is allowed when some row matches and every decisive row says allow. */
  ghost function Meaning(rows: set<PolicyRow>, peer: string, table: string, action: string): Resolved {
    if forall row | row in rows :: !Matches(row, peer, table, action) then Unmatched
    else if forall row | Decisive(row, rows, peer, table, action) :: row.effect == "allow" then Allowed
    else Denied
  }

  ghost function Rows(policy: seq<PolicyRow>): set<PolicyRow> {
    set row | row in policy
  }

  /** Some decisive row exists whenever any row matches. */
  lemma {:induction false} DecisiveExists(rows: set<PolicyRow>, row: PolicyRow, peer: string, table: string, action: string)
      returns (top: PolicyRow)
    requires row in rows && Matches(row, peer, table, action)
    ensures Decisive(top, rows, peer, table, action)
    decreases 3 - Score(row)
  {
    top := row;
    if other :| other in rows && Matches(other, peer, table, action) && Score(other) > Score(row) {
      top := DecisiveExists(rows, other, peer, table, action);
    }
  }

  // ----- the tier -----

  /** Best match so far: its score, and whether every row of that score said allow. */
  datatype Best = NoMatch | Best(score: nat, isAllow: bool)

  /** The matching rows of one specificity. */
  ghost function Level(rows: set<PolicyRow>, score: nat, peer: string, table: string, action: string): set<PolicyRow> {
    set row | row in rows && Matches(row, peer, table, action) && Score(row) == score
  }

  ghost predicate AllAllow(rows: set<PolicyRow>) {
    forall row | row in rows :: row.effect == "allow"
  }

  ghost predicate BestOf(best: Best, rows: set<PolicyRow>, peer: string, table: string, action: string) {
    match best
    case NoMatch => forall s: nat :: Level(rows, s, peer, table, action) == {}
    case Best(score, isAllow) =>
      && Level(rows, score, peer, table, action) != {}
      && (forall s: nat :: s > score ==> Level(rows, s, peer, table, action) == {})
      && isAllow == AllAllow(Level(rows, score, peer, table, action))
  }

  function Improve(best: Best, row: PolicyRow): Best {
    var score := Score(row);
    var isAllow := row.effect == "allow";
    match best
    case NoMatch => Best(score, isAllow)
    case Best(s, a) =>
      if score > s then Best(score, isAllow)
      else if score == s then Best(s, a && isAllow)
      else best
  }

  /** The best-so-far fold over the rows in any order computes the order-free meaning. */
  method Resolve(policy: seq<PolicyRow>, peer: string, table: string, action: string) returns (resolved: Resolved)
    ensures resolved == Meaning(Rows(policy), peer, table, action)
  {
    var best := NoMatch;
    for i := 0 to |policy|
      invariant BestOf(best, Rows(policy[..i]), peer, table, action)
    {
      var row := policy[i];
      ghost var before := Rows(policy[..i]);
      assert Rows(policy[..i + 1]) == before + {row};
      if Matches(row, peer, table, action) {
        BestStep(best, before, row, peer, table, action);
        best := Improve(best, row);
      } else {
        forall s: nat
          ensures Level(before + {row}, s, peer, table, action) == Level(before, s, peer, table, action)
        {
        }
      }
    }
    assert policy[..|policy|] == policy;
    BestIsMeaning(best, Rows(policy), peer, table, action);
    resolved := match best
      case NoMatch => Unmatched
      case Best(_, true) => Allowed
      case Best(_, false) => Denied;
  }

  lemma BestStep(best: Best, rows: set<PolicyRow>, row: PolicyRow, peer: string, table: string, action: string)
    requires BestOf(best, rows, peer, table, action) && Matches(row, peer, table, action)
    ensures BestOf(Improve(best, row), rows + {row}, peer, table, action)
  {
    forall s: nat
      ensures Level(rows + {row}, s, peer, table, action)
              == Level(rows, s, peer, table, action) + (if s == Score(row) then {row} else {})
    {
    }
  }

  lemma BestIsMeaning(best: Best, rows: set<PolicyRow>, peer: string, table: string, action: string)
    requires BestOf(best, rows, peer, table, action)
    ensures Meaning(rows, peer, table, action) == match best
              case NoMatch => Unmatched
              case Best(_, true) => Allowed
              case Best(_, false) => Denied
  {
    forall row | row in rows && Matches(row, peer, table, action)
      ensures best.Best? && Score(row) <= best.score
    {
      assert row in Level(rows, Score(row), peer, table, action);
    }
    if best.Best? {
      var top :| top in Level(rows, best.score, peer, table, action);
      assert Decisive(top, rows, peer, table, action);
      forall row ensures Decisive(row, rows, peer, table, action) <==> row in Level(rows, best.score, peer, table, action) {
      }
    }
  }

  /** The resources a footprint is checked against; none at all means the single wildcard. */
  function Resources(footprint: Footprint): (names: seq<string>)
    ensures names != []
  {
    if footprint.tables == [] then ["*"] else footprint.TableNames()
  }

  function DenyReason(peer: string, action: string, table: string): string {
    "policy: " + action + " on " + table + " denied for " + peer
  }

  function ConstructsReason(footprint: Footprint): string {
    "policy: statement uses denied constructs: " + Join(footprint.denied, ", ")
  }

  /** The tier's answer over resources scanned in order; `None` is a table that cannot be read. */
  ghost function ScanAnswer(rows: set<PolicyRow>, names: seq<string>, peer: string, action: string, unmatched: bool): Decision {
    if names == [] then (if unmatched then Escalate else Allow)
    else match Meaning(rows, peer, names[0], action)
      case Allowed => ScanAnswer(rows, names[1..], peer, action, unmatched)
      case Unmatched => ScanAnswer(rows, names[1..], peer, action, true)
      case Denied => Deny(DenyReason(peer, action, names[0]))
  }

  ghost function PolicyAnswer(policy: Option<seq<PolicyRow>>, request: Request): Decision {
    if request.footprint.HasDenied() then Deny(ConstructsReason(request.footprint))
    else if policy.None? then Escalate
    else ScanAnswer(Rows(policy.value), Resources(request.footprint), request.peer, request.action, false)
  }

  /** `PolicyTier::decide`, with its early returns. */
  method Decide(policy: Option<seq<PolicyRow>>, request: Request) returns (decision: Decision)
    ensures decision == PolicyAnswer(policy, request)
  {
    if request.footprint.HasDenied() {
      return Deny(ConstructsReason(request.footprint));
    }
    var names := Resources(request.footprint);
    var unmatched := false;
    for i := 0 to |names|
      invariant i > 0 ==> policy.Some?
      invariant policy.Some? ==>
        ScanAnswer(Rows(policy.value), names, request.peer, request.action, false)
        == ScanAnswer(Rows(policy.value), names[i..], request.peer, request.action, unmatched)
    {
      if policy.None? {
        return Escalate;
      }
      var resolved := Resolve(policy.value, request.peer, names[i], request.action);
      assert names[i..][1..] == names[i + 1..];
      match resolved
      case Allowed =>
      case Denied => return Deny(DenyReason(request.peer, request.action, names[i]));
      case Unmatched => unmatched := true;
    }
    return if unmatched then Escalate else Allow;
  }

  /** Deny if any construct or table is denied, else Escalate if any table is unmatched, else Allow. */
  lemma FootprintMeaning(policy: seq<PolicyRow>, request: Request)
    ensures var answer := PolicyAnswer(Some(policy), request);
            var names := Resources(request.footprint);
            var anyDenied := exists t :: t in names && Meaning(Rows(policy), request.peer, t, request.action) == Denied;
            var anyUnmatched := exists t :: t in names && Meaning(Rows(policy), request.peer, t, request.action) == Unmatched;
            && (answer.Deny? <==> request.footprint.HasDenied() || anyDenied)
            && (answer == Escalate <==> !request.footprint.HasDenied() && !anyDenied && anyUnmatched)
            && (answer == Allow <==> !request.footprint.HasDenied() && !anyDenied && !anyUnmatched)
  {
    ScanMeaning(Rows(policy), Resources(request.footprint), request.peer, request.action, false);
  }

  lemma {:induction false} ScanMeaning(rows: set<PolicyRow>, names: seq<string>, peer: string, action: string, unmatched: bool)
    ensures var answer := ScanAnswer(rows, names, peer, action, unmatched);
            var anyDenied := exists t :: t in names && Meaning(rows, peer, t, action) == Denied;
            var anyUnmatched := unmatched || exists t :: t in names && Meaning(rows, peer, t, action) == Unmatched;
            && (answer.Deny? <==> anyDenied)
            && (answer == Escalate <==> !anyDenied && anyUnmatched)
            && (answer == Allow <==> !anyDenied && !anyUnmatched)
  {
    if names != [] {
      assert forall t :: t in names <==> t == names[0] || t in names[1..];
      ScanMeaning(rows, names[1..], peer, action, unmatched || Meaning(rows, peer, names[0], action) == Unmatched);
    }
  }

  /** Only which `(peer, table, action, effect)` rules are present matters: not order, copies or notes. */
  lemma MeaningIgnoresNotesAndCopies(a: set<PolicyRow>, b: set<PolicyRow>, peer: string, table: string, action: string)
    requires Rules(a) == Rules(b)
    ensures Meaning(a, peer, table, action) == Meaning(b, peer, table, action)
  {
    RulesDetermine(a, b, peer, table, action);
    RulesDetermine(b, a, peer, table, action);
  }

  ghost function Rules(rows: set<PolicyRow>): set<(string, string, string, string)> {
    set row | row in rows :: (row.peer, row.table, row.action, row.effect)
  }

  lemma RulesDetermine(a: set<PolicyRow>, b: set<PolicyRow>, peer: string, table: string, action: string)
    requires Rules(a) == Rules(b)
    ensures Meaning(a, peer, table, action) == Unmatched ==> Meaning(b, peer, table, action) == Unmatched
    ensures Meaning(a, peer, table, action) == Allowed ==> Meaning(b, peer, table, action) == Allowed
  {
    if Meaning(a, peer, table, action) == Unmatched {
      forall row | row in b
        ensures !Matches(row, peer, table, action)
      {
        var twin := TwinRow(b, a, row);
      }
    } else if Meaning(a, peer, table, action) == Allowed {
      var matching :| matching in a && Matches(matching, peer, table, action);
      var twin := TwinRow(a, b, matching);
      forall row | Decisive(row, b, peer, table, action)
        ensures row.effect == "allow"
      {
        TwinDecisive(b, a, row, peer, table, action);
      }
    }
  }

  lemma TwinDecisive(a: set<PolicyRow>, b: set<PolicyRow>, row: PolicyRow, peer: string, table: string, action: string)
    requires Rules(a) == Rules(b) && Decisive(row, a, peer, table, action)
    ensures exists twin :: Decisive(twin, b, peer, table, action) && twin.effect == row.effect
  {
    var twin := TwinRow(a, b, row);
    forall other | other in b && Matches(other, peer, table, action)
      ensures Score(other) <= Score(twin)
    {
      var back := TwinRow(b, a, other);
    }
    assert Decisive(twin, b, peer, table, action);
  }

  lemma TwinRow(a: set<PolicyRow>, b: set<PolicyRow>, row: PolicyRow) returns (twin: PolicyRow)
    requires row in a && Rules(a) == Rules(b)
    ensures twin in b && twin == row.(note := twin.note)
  {
    assert (row.peer, row.table, row.action, row.effect) in Rules(b);
    twin :| twin in b && (twin.peer, twin.table, twin.action, twin.effect) == (row.peer, row.table, row.action, row.effect);
  }

  /** Tables with the same rules answer every request alike. */
  lemma RulesDetermineAnswer(a: seq<PolicyRow>, b: seq<PolicyRow>, request: Request)
    requires Rules(Rows(a)) == Rules(Rows(b))
    ensures PolicyAnswer(Some(a), request) == PolicyAnswer(Some(b), request)
  {
    RulesDetermineScan(Rows(a), Rows(b), Resources(request.footprint), request.peer, request.action, false);
  }

  lemma {:induction false} RulesDetermineScan(a: set<PolicyRow>, b: set<PolicyRow>, names: seq<string>, peer: string,
                                              action: string, unmatched: bool)
    requires Rules(a) == Rules(b)
    ensures ScanAnswer(a, names, peer, action, unmatched) == ScanAnswer(b, names, peer, action, unmatched)
  {
    if names != [] {
      MeaningIgnoresNotesAndCopies(a, b, peer, names[0], action);
      RulesDetermineScan(a, b, names[1..], peer, action, unmatched);
      RulesDetermineScan(a, b, names[1..], peer, action, true);
    }
  }

  // ----- the tier on tables as they stand -----

  predicate HasRuleFor(policy: seq<PolicyRow>, peer: string, table: string, action: string) {
    exists row :: row in policy && row.peer == peer && row.table == table && row.action == action
  }

  /** What the rules for this very peer, table and action say together: anything but allow denies. */
  function RulesSay(policy: seq<PolicyRow>, peer: string, table: string, action: string): Resolved {
    if !HasRuleFor(policy, peer, table, action) then Unmatched
    else if forall row :: row in policy && row.peer == peer && row.table == table && row.action == action ==> row.effect == "allow"
    then Allowed
    else Denied
  }

  /** Most specific first: rules for the peer on the table, then for the peer on every table, then for everyone on
      the table, then for everyone on every table. */
  lemma SpecificityOrder(policy: seq<PolicyRow>, peer: string, table: string, action: string)
    ensures Meaning(Rows(policy), peer, table, action) ==
            if HasRuleFor(policy, peer, table, action) then RulesSay(policy, peer, table, action)
            else if HasRuleFor(policy, peer, "*", action) then RulesSay(policy, peer, "*", action)
            else if HasRuleFor(policy, "*", table, action) then RulesSay(policy, "*", table, action)
            else RulesSay(policy, "*", "*", action)
  {
    if HasRuleFor(policy, peer, table, action) {
      LayerDecides(policy, peer, table, action, peer, table);
    } else if HasRuleFor(policy, peer, "*", action) {
      LayerDecides(policy, peer, table, action, peer, "*");
    } else if HasRuleFor(policy, "*", table, action) {
      LayerDecides(policy, peer, table, action, "*", table);
    } else if HasRuleFor(policy, "*", "*", action) {
      LayerDecides(policy, peer, table, action, "*", "*");
    }
  }

  /** The most specific layer that has rules decides. */
  lemma LayerDecides(policy: seq<PolicyRow>, peer: string, table: string, action: string, p: string, t: string)
    requires (p == peer || p == "*") && (t == table || t == "*") && HasRuleFor(policy, p, t, action)
    requires p != peer ==> !HasRuleFor(policy, peer, table, action) && !HasRuleFor(policy, peer, "*", action)
    requires t != table ==> !HasRuleFor(policy, p, table, action)
    ensures Meaning(Rows(policy), peer, table, action) == RulesSay(policy, p, t, action)
  {
    var rule :| rule in policy && rule.peer == p && rule.table == t && rule.action == action;
    forall row
      ensures Decisive(row, Rows(policy), peer, table, action)
              <==> row in policy && row.peer == p && row.table == t && row.action == action
    {
      forall other | other in policy && Matches(other, peer, table, action) ensures Score(other) <= Score(rule) {
        assert HasRuleFor(policy, other.peer, other.table, action);
      }
      assert Decisive(rule, Rows(policy), peer, table, action);
    }
  }

  /** Table by table: allowed when every table is, denied when one is, asked on otherwise. A request without
      tables is judged on `*`. */
  lemma TableByTable(policy: seq<PolicyRow>, request: Request)
    requires request.footprint.denied == [] && request.footprint.tables != []
    ensures var answer, tables := PolicyAnswer(Some(policy), request), request.footprint.tables;
            && (answer == Allow <==> forall i :: 0 <= i < |tables| ==>
                  Meaning(Rows(policy), request.peer, tables[i].table, request.action) == Allowed)
            && (answer.Deny? <==> !forall i :: 0 <= i < |tables| ==>
                  Meaning(Rows(policy), request.peer, tables[i].table, request.action) != Denied)
            && (answer == Allow || answer.Deny? || answer == Escalate)
  {
    var names, tables := Resources(request.footprint), request.footprint.tables;
    FootprintMeaning(policy, request);
    assert |names| == |tables| && forall i :: 0 <= i < |tables| ==> names[i] == tables[i].table;
    forall t | t in names ensures exists i :: 0 <= i < |tables| && tables[i].table == t {
      var i :| 0 <= i < |names| && names[i] == t;
    }
    forall i | 0 <= i < |tables| ensures tables[i].table in names {
      assert names[i] in names;
    }
  }

  lemma NoTablesMeansAny(policy: seq<PolicyRow>, request: Request)
    requires request.footprint.denied == [] && request.footprint.tables == []
    ensures var answer := PolicyAnswer(Some(policy), request);
            match Meaning(Rows(policy), request.peer, "*", request.action)
            case Allowed => answer == Allow
            case Unmatched => answer == Escalate
            case Denied => answer.Deny?
  {
    FootprintMeaning(policy, request);
    assert Resources(request.footprint) == ["*"] && "*" in Resources(request.footprint);
  }

  /** Denied constructs are denied whatever the table says or whether it can be read; without them, a table that
      cannot be read leaves the request to the next tier. */
  lemma WithoutRules(policy: Option<seq<PolicyRow>>, request: Request)
    ensures request.footprint.denied != [] ==> PolicyAnswer(policy, request).Deny?
    ensures request.footprint.denied == [] && policy.None? ==> PolicyAnswer(policy, request) == Escalate
    ensures |request.footprint.denied| == 1 ==>
              PolicyAnswer(policy, request) == Deny("policy: statement uses denied constructs: " + request.footprint.denied[0])
    ensures |request.footprint.denied| == 2 ==>
              PolicyAnswer(policy, request) == Deny("policy: statement uses denied constructs: "
                                                    + (request.footprint.denied[0] + ", " + request.footprint.denied[1]))
  {
    var denied := request.footprint.denied;
    if |denied| == 2 {
      assert denied[1..] == [denied[1]];
      assert Join(denied[1..], ", ") == denied[1];
    }
  }

  /** A denial names the first denied table. */
  lemma FirstDenialIsNamed(policy: seq<PolicyRow>, request: Request, k: nat)
    requires request.footprint.denied == [] && k < |request.footprint.tables|
    requires Meaning(Rows(policy), request.peer, request.footprint.tables[k].table, request.action) == Denied
    requires forall i :: 0 <= i < k ==>
               Meaning(Rows(policy), request.peer, request.footprint.tables[i].table, request.action) != Denied
    ensures PolicyAnswer(Some(policy), request) ==
            Deny("policy: " + request.action + " on " + request.footprint.tables[k].table + " denied for " + request.peer)
  {
    var names := Resources(request.footprint);
    assert forall i :: 0 <= i < |names| ==> names[i] == request.footprint.tables[i].table;
    ScanStopsAt(Rows(policy), names, request.peer, request.action, false, k);
  }

  lemma {:induction false} ScanStopsAt(rows: set<PolicyRow>, names: seq<string>, peer: string, action: string, unmatched: bool, k: nat)
    requires k < |names| && Meaning(rows, peer, names[k], action) == Denied
    requires forall i :: 0 <= i < k ==> Meaning(rows, peer, names[i], action) != Denied
    ensures ScanAnswer(rows, names, peer, action, unmatched) ==
            Deny("policy: " + action + " on " + names[k] + " denied for " + peer)
    decreases k
  {
    if k > 0 {
      assert names[1..][k - 1] == names[k];
      ScanStopsAt(rows, names[1..], peer, action, unmatched || Meaning(rows, peer, names[0], action) == Unmatched, k - 1);
    }
  }
}
