/** The `"cache"` and `"human"` tiers over the shared tables. */
module Tiers {
  import opened AuthTypes
  import opened AuthTables
  import opened Fingerprint

  const PENDING_REASON := "pending human decision"

  /** Which SQL call of the human tier fails, if any. */
  datatype Fault = Healthy | LookupFails | InsertFails

  // ----- cache -----

  predicate Live(entry: Remembered, now: real) {
    entry.expires.None? || entry.expires.value > now
  }

  function CacheAnswer(tables: Tables, request: Request, now: real, fails: bool): Decision {
    var key := (request.peer, KeyOf(request));
    if request.footprint.HasDenied() || request.action == "knock" || fails then Escalate
    else if key !in tables.decisions || !Live(tables.decisions[key], now) then Escalate
    else
      var entry := tables.decisions[key];
      if entry.decision == "allow" then Allow
      else if entry.decision == "deny" then
        Deny(if entry.reason.Some? then entry.reason.value else "denied by remembered decision")
      else Escalate
  }

  method CacheDecide(conn: Connection, request: Request, now: real, fails: bool) returns (decision: Decision)
    ensures decision == CacheAnswer(conn.View(), request, now, fails)
  {
    if request.footprint.HasDenied() {
      return Escalate;
    }
    if request.action == "knock" {
      return Escalate;
    }
    var fingerprint := StatementFingerprint(request.action, request.statement, request.footprint);
    var key := (request.peer, fingerprint);
    if fails {
      return Escalate;
    }
    if key !in conn.decisions || !Live(conn.decisions[key], now) {
      return Escalate;
    }
    var entry := conn.decisions[key];
    match entry.decision
    case "allow" => return Allow;
    case "deny" =>
      return Deny(if entry.reason.Some? then entry.reason.value else "denied by remembered decision");
    case _ => return Escalate;
  }

  // ----- human -----

  /** A statement row (not a knock) of this peer and shape. */
  predicate ParkedAs(row: InboxRow, peer: string, fingerprint: Fingerprint) {
    row.peer == peer && row.sql != "" && row.params.Readable? && row.params.parked.fingerprint == fingerprint
  }

  predicate HasPending(inbox: seq<InboxRow>, peer: string, fingerprint: Fingerprint) {
    exists row :: row in inbox && row.decision.None? && ParkedAs(row, peer, fingerprint)
  }

  /** What the tier's query for a pending row finds. It fails on the first pending statement of the peer whose
      params are not JSON, unless a match comes before it. */
  datatype Lookup = Found | Absent | Failed

  /** Params in which `json_extract` finds this fingerprint. */
  predicate Carries(params: Params, fingerprint: Fingerprint) {
    match params
    case Readable(parked) => parked.fingerprint == fingerprint
    case OtherJson(_, found) => found == Some(fingerprint)
    case NotJson(_) => false
  }

  predicate PendingStatement(row: InboxRow, peer: string) {
    row.peer == peer && row.decision.None? && row.sql != ""
  }

  function LookUp(inbox: seq<InboxRow>, peer: string, fingerprint: Fingerprint): (lookup: Lookup)
    ensures lookup.Found? ==> exists row :: row in inbox && PendingStatement(row, peer) && Carries(row.params, fingerprint)
    ensures lookup.Failed? ==> exists row :: row in inbox && PendingStatement(row, peer) && row.params.NotJson?
    ensures lookup.Absent? ==>
              forall row :: row in inbox && PendingStatement(row, peer) ==> !row.params.NotJson? && !Carries(row.params, fingerprint)
  {
    if inbox == [] then Absent
    else if PendingStatement(inbox[0], peer) && inbox[0].params.NotJson? then Failed
    else if PendingStatement(inbox[0], peer) && Carries(inbox[0].params, fingerprint) then Found
    else LookUp(inbox[1..], peer, fingerprint)
  }

  /** On tables whose statement rows are all readable the query never fails and finds what is pending. */
  lemma LookUpReadable(inbox: seq<InboxRow>, peer: string, fingerprint: Fingerprint)
    requires forall row :: row in inbox && row.sql != "" ==> row.params.Readable?
    ensures LookUp(inbox, peer, fingerprint) == if HasPending(inbox, peer, fingerprint) then Found else Absent
  {
  }

  predicate UsesId(inbox: seq<InboxRow>, id: string) {
    exists row :: row in inbox && row.id == id
  }

  function ParkedRow(request: Request, id: string): InboxRow {
    InboxRow(id, request.peer, request.statement,
             Readable(ParkedParams(request.action, KeyOf(request), request.footprint)), None)
  }

  /** Requests the human tier takes a position on. */
  predicate Parkable(request: Request) {
    request.statement != "" && request.action != "knock" && !request.footprint.HasDenied()
  }

  function HumanAnswer(tables: Tables, request: Request, id: string, fault: Fault): (Tables, Decision) {
    if !Parkable(request) || fault == LookupFails then (tables, Escalate)
    else match LookUp(tables.inbox, request.peer, KeyOf(request))
      case Found => (tables, Deny(PENDING_REASON))
      case Failed => (tables, Escalate)
      case Absent =>
        if fault == InsertFails || UsesId(tables.inbox, id) then (tables, Escalate)
        else (tables.(inbox := tables.inbox + [ParkedRow(request, id)]), Deny(PENDING_REASON))
  }

  method HumanDecide(conn: Connection, request: Request, id: string, fault: Fault) returns (decision: Decision)
    modifies conn
    ensures (conn.View(), decision) == HumanAnswer(old(conn.View()), request, id, fault)
  {
    if request.statement == "" || request.action == "knock" {
      return Escalate;
    }
    if request.footprint.HasDenied() {
      return Escalate;
    }
    var fingerprint := StatementFingerprint(request.action, request.statement, request.footprint);
    if fault == LookupFails {
      return Escalate;
    }
    var pending := LookUp(conn.inbox, request.peer, fingerprint);
    match pending {
      case Found => return Deny(PENDING_REASON);
      case Failed => return Escalate;
      case Absent =>
    }
    if fault == InsertFails || UsesId(conn.inbox, id) {
      return Escalate;
    }
    var params := ParkedParams(request.action, fingerprint, request.footprint);
    conn.inbox := conn.inbox + [InboxRow(id, request.peer, request.statement, Readable(params), None)];
    return Deny(PENDING_REASON);
  }

  // ----- when each tier speaks -----

  /** The cache speaks exactly for a readable, remembered and unexpired allow or deny of a request that is no knock
      and uses no denied construct. */
  lemma CacheSpeaksExactly(tables: Tables, request: Request, now: real, fails: bool)
    ensures var key := (request.peer, KeyOf(request));
            CacheAnswer(tables, request, now, fails) != Escalate <==>
            && !fails && request.action != "knock" && request.footprint.denied == []
            && key in tables.decisions
            && (tables.decisions[key].expires.Some? ==> now < tables.decisions[key].expires.value)
            && tables.decisions[key].decision in {"allow", "deny"}
  {
  }

  /** What it says then, and that an entry past its time is as good as none. */
  lemma CacheServes(tables: Tables, request: Request, now: real, entry: Remembered)
    requires request.action != "knock" && request.footprint.denied == []
    requires (request.peer, KeyOf(request)) in tables.decisions && tables.decisions[(request.peer, KeyOf(request))] == entry
    ensures var answer := CacheAnswer(tables, request, now, false);
            && (entry.expires.Some? && entry.expires.value <= now ==> answer == Escalate)
            && (entry.expires.None? || entry.expires.value > now ==>
                  && (entry.decision == "allow" ==> answer == Allow)
                  && (entry.decision == "deny" && entry.reason.Some? ==> answer == Deny(entry.reason.value))
                  && (entry.decision == "deny" && entry.reason.None? ==> answer == Deny("denied by remembered decision")))
  {
  }

  /** Knocks, empty statements and denied constructs are not the human tier's: it abstains and parks nothing. */
  lemma NotParked(tables: Tables, request: Request, id: string, fault: Fault)
    requires request.action == "knock" || request.statement == "" || request.footprint.denied != []
    ensures HumanAnswer(tables, request, id, fault) == (tables, Escalate)
  {
  }

  /** Everything else is parked in full, unless the shape is pending already, and answered pending. */
  lemma ParkedInFull(tables: Tables, request: Request, id: string)
    requires request.action != "knock" && request.statement != "" && request.footprint.denied == []
    requires forall row :: row in tables.inbox ==> row.id != id && (row.sql != "" && row.decision.None? ==> row.peer != request.peer)
    ensures HumanAnswer(tables, request, id, Healthy) ==
            (tables.(inbox := tables.inbox + [InboxRow(id, request.peer, request.statement,
                       Readable(ParkedParams(request.action, KeyOf(request), request.footprint)), None)]),
             Deny("pending human decision"))
  {
    assert forall row :: row in tables.inbox ==> !PendingStatement(row, request.peer);
  }

  /** A pending statement of the peer that the query for pending rows stops at: one whose params are not JSON, or one
      in whose params it finds the fingerprint. */
  predicate Stops(row: InboxRow, peer: string, fingerprint: Fingerprint) {
    && row.peer == peer && row.decision.None? && row.sql != ""
    && (row.params.NotJson?
        || (row.params.Readable? && row.params.parked.fingerprint == fingerprint)
        || (row.params.OtherJson? && row.params.fingerprint == Some(fingerprint)))
  }

  /** The first such row decides: the shape is pending, or the query fails and the tier abstains. */
  lemma {:induction false} FirstStopDecides(inbox: seq<InboxRow>, peer: string, fingerprint: Fingerprint, k: nat)
    requires k <= |inbox| && forall i :: 0 <= i < k ==> !Stops(inbox[i], peer, fingerprint)
    requires k < |inbox| ==> Stops(inbox[k], peer, fingerprint)
    ensures LookUp(inbox, peer, fingerprint) ==
            if k == |inbox| then Absent else if inbox[k].params.NotJson? then Failed else Found
    decreases k
  {
    if k > 0 {
      assert forall i :: 0 <= i < |inbox| - 1 ==> inbox[1..][i] == inbox[i + 1];
      FirstStopDecides(inbox[1..], peer, fingerprint, k - 1);
    }
  }

  /** The human tier by that row, and under each failure: only a request nothing stops is parked. */
  lemma HumanByFirstStop(tables: Tables, request: Request, id: string, fault: Fault, k: nat)
    requires request.action != "knock" && request.statement != "" && request.footprint.denied == []
    requires k <= |tables.inbox| && forall i :: 0 <= i < k ==> !Stops(tables.inbox[i], request.peer, KeyOf(request))
    requires k < |tables.inbox| ==> Stops(tables.inbox[k], request.peer, KeyOf(request))
    ensures var (after, answer) := HumanAnswer(tables, request, id, fault);
            && (fault == LookupFails ==> answer == Escalate && after == tables)
            && (fault != LookupFails && k < |tables.inbox| ==>
                  after == tables && answer == if tables.inbox[k].params.NotJson? then Escalate else Deny("pending human decision"))
            && (fault == InsertFails && k == |tables.inbox| ==> answer == Escalate && after == tables)
            && (fault == Healthy && k == |tables.inbox| && (exists row :: row in tables.inbox && row.id == id) ==>
                  answer == Escalate && after == tables)
  {
    FirstStopDecides(tables.inbox, request.peer, KeyOf(request), k);
  }
}
