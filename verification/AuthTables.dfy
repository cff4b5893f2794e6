/** The node tables the decider chain and the answer flows read and write. */
module AuthTables {
  import opened AuthTypes
  import opened Fingerprint
  import opened Policy

  datatype ParkedParams = ParkedParams(action: string, fingerprint: Fingerprint, footprint: Footprint)

  /** `_inbox.params`: a parked statement's JSON; other JSON, with the `fingerprint` field it may have; or text
      that is not JSON. */
  datatype Params =
    | Readable(parked: ParkedParams)
    | OtherJson(text: string, fingerprint: Option<Fingerprint>)
    | NotJson(text: string)

  /** An `_inbox` row; an empty `sql` is a knock, no `decision` is pending. */
  datatype InboxRow = InboxRow(id: string, peer: string, sql: string, params: Params, decision: Option<string>)

  /** A `_decisions` row; `expires` in Unix seconds. */
  datatype Remembered = Remembered(decision: string, reason: Option<string>, decidedBy: string, expires: Option<real>)

  type DecisionKey = (string, Fingerprint)

  /** A snapshot of the four tables. */
  datatype Tables = Tables(
    inbox: seq<InboxRow>,
    decisions: map<DecisionKey, Remembered>,
    policy: seq<PolicyRow>,
    peers: map<string, string>)

  // ----- the statements of an answer -----

  /** One SQL statement, atomic to every other connection. */
  datatype Statement =
    | Mark(id: string, decision: string)
    | Admit(peer: string, note: string)
    | AddRule(row: PolicyRow)
    | AddRuleIfAbsent(row: PolicyRow)
    | Record(key: DecisionKey, entry: Remembered)

  /** `UPDATE _inbox SET decision`: whatever the decision was. */
  function MarkDecided(inbox: seq<InboxRow>, id: string, decision: string): (marked: seq<InboxRow>)
    ensures |marked| == |inbox|
    ensures forall i :: 0 <= i < |inbox| ==>
      marked[i] == if inbox[i].id == id then inbox[i].(decision := Some(decision)) else inbox[i]
  {
    seq(|inbox|, i requires 0 <= i < |inbox| =>
      if inbox[i].id == id then inbox[i].(decision := Some(decision)) else inbox[i])
  }

  /** `INSERT OR IGNORE INTO _peers`. */
  function Admitted(peers: map<string, string>, peer: string, note: string): map<string, string> {
    if peer in peers then peers else peers[peer := note]
  }

  predicate HasRule(policy: seq<PolicyRow>, peer: string, table: string, action: string, effect: string) {
    exists row :: row in policy && row.peer == peer && row.table == table && row.action == action && row.effect == effect
  }

  /** `INSERT ... WHERE NOT EXISTS` of the same rule. */
  function InsertIfAbsent(policy: seq<PolicyRow>, row: PolicyRow): seq<PolicyRow> {
    if HasRule(policy, row.peer, row.table, row.action, row.effect) then policy else policy + [row]
  }

  /** `record_decision` inserts, or replaces on the `(peer, fingerprint)` key. */
  function Executed(tables: Tables, statement: Statement): Tables {
    match statement
    case Mark(id, decision) => tables.(inbox := MarkDecided(tables.inbox, id, decision))
    case Admit(peer, note) => tables.(peers := Admitted(tables.peers, peer, note))
    case AddRule(row) => tables.(policy := tables.policy + [row])
    case AddRuleIfAbsent(row) => tables.(policy := InsertIfAbsent(tables.policy, row))
    case Record(key, entry) => tables.(decisions := tables.decisions[key := entry])
  }

  function ExecutedAll(tables: Tables, statements: seq<Statement>): Tables
    decreases |statements|
  {
    if statements == [] then tables else ExecutedAll(Executed(tables, statements[0]), statements[1..])
  }

  lemma {:induction false} ExecutedConcat(tables: Tables, a: seq<Statement>, b: seq<Statement>)
    ensures ExecutedAll(tables, a + b) == ExecutedAll(ExecutedAll(tables, a), b)
    decreases |a|
  {
    if a == [] {
      assert a + b == b;
    } else {
      assert (a + b)[0] == a[0] && (a + b)[1..] == a[1..] + b;
      ExecutedConcat(Executed(tables, a[0]), a[1..], b);
    }
  }

  /** The database connection every tier and answer flow works on, and the answer statements it executed. */
  class Connection {
    var inbox: seq<InboxRow>
    var decisions: map<DecisionKey, Remembered>
    var policy: seq<PolicyRow>
    var peers: map<string, string>
    ghost var log: seq<Statement>

    constructor (tables: Tables)
      ensures View() == tables && log == []
    {
      inbox, decisions, policy, peers := tables.inbox, tables.decisions, tables.policy, tables.peers;
      log := [];
    }

    function View(): Tables
      reads this
    {
      Tables(inbox, decisions, policy, peers)
    }

    method Execute(statement: Statement)
      modifies this
      ensures View() == Executed(old(View()), statement)
      ensures log == old(log) + [statement]
    {
      match statement {
        case Mark(id, decision) => inbox := MarkDecided(inbox, id, decision);
        case Admit(peer, note) => peers := Admitted(peers, peer, note);
        case AddRule(row) => policy := policy + [row];
        case AddRuleIfAbsent(row) => policy := InsertIfAbsent(policy, row);
        case Record(key, entry) => decisions := decisions[key := entry];
      }
      log := log + [statement];
    }
  }
}
