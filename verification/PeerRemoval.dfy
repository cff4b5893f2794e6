/** `rsntr peer remove`: five table-changing steps that may be interrupted and re-run. */
module PeerRemoval {
  import opened AuthTypes
  import opened Policy

  datatype DecisionRow = DecisionRow(peer: string, fingerprint: string, decision: string)
  datatype Member = Member(room: string, member: string)
  datatype OutboxRow = OutboxRow(peer: string, signal: string, status: string, error: string)

  /** The tables a removal touches; `members` is absent on a node that never used chat. */
  datatype Tables = Tables(
    peers: map<string, Option<string>>,   // endpoint id -> petname
    policy: seq<PolicyRow>,
    decisions: seq<DecisionRow>,
    members: Option<seq<Member>>,
    outbox: seq<OutboxRow>)

  // ----- row filters -----

  function Filter<T(!new)>(rows: seq<T>, keep: T -> bool): (kept: seq<T>)
    ensures |kept| <= |rows|
    ensures forall row :: row in kept <==> row in rows && keep(row)
  {
    if rows == [] then []
    else (if keep(rows[0]) then [rows[0]] else []) + Filter(rows[1..], keep)
  }

  lemma {:induction false} FilterAll<T(!new)>(rows: seq<T>, keep: T -> bool)
    requires forall row :: row in rows ==> keep(row)
    ensures Filter(rows, keep) == rows
  {
    if rows != [] {
      FilterAll(rows[1..], keep);
    }
  }

  /** Rows every filter keeps are not disturbed by it. */
  lemma {:induction false} FilterWithin<T(!new)>(rows: seq<T>, keep: T -> bool, mine: T -> bool)
    requires forall row :: row in rows && mine(row) ==> keep(row)
    ensures Filter(Filter(rows, keep), mine) == Filter(rows, mine)
  {
    if rows != [] {
      FilterWithin(rows[1..], keep, mine);
      if keep(rows[0]) {
        assert Filter(rows, keep)[1..] == Filter(rows[1..], keep);
      } else {
        assert Filter(rows, keep) == Filter(rows[1..], keep);
      }
    }
  }

  // ----- the steps -----

  function KeepsRule(id: string): PolicyRow -> bool {
    (row: PolicyRow) => !(row.peer == id && row.effect != "deny")
  }

  function KeepsDecision(id: string): DecisionRow -> bool {
    (row: DecisionRow) => row.peer != id
  }

  function KeepsMember(id: string): Member -> bool {
    (row: Member) => row.member != id
  }

  predicate Undelivered(row: OutboxRow) {
    row.status == "queued" || row.status == "sent"
  }

  /** Queued or sent to the peer, by id or by the petname it was stored under. */
  predicate Cancels(row: OutboxRow, id: string, name: Option<string>) {
    Undelivered(row) && (row.peer == id || name == Some(row.peer))
  }

  function Cancelled(row: OutboxRow, id: string, name: Option<string>): OutboxRow {
    if Cancels(row, id, name) then row.(status := "error", error := "peer removed") else row
  }

  function CancelAll(outbox: seq<OutboxRow>, id: string, name: Option<string>): (after: seq<OutboxRow>)
    ensures |after| == |outbox|
    ensures forall i :: 0 <= i < |outbox| ==> after[i] == Cancelled(outbox[i], id, name)
  {
    seq(|outbox|, i requires 0 <= i < |outbox| => Cancelled(outbox[i], id, name))
  }

  function CountCancelled(outbox: seq<OutboxRow>, id: string, name: Option<string>): nat {
    if outbox == [] then 0
    else (if Cancels(outbox[0], id, name) then 1 else 0) + CountCancelled(outbox[1..], id, name)
  }

  const STEPS := 5

  /** Step `i` as one SQL statement, with its affected-row count. */
  function Step(i: nat, tables: Tables, id: string, name: Option<string>): (Tables, nat)
    requires i < STEPS
  {
    match i
    case 0 => (tables.(peers := tables.peers - {id}), if id in tables.peers then 1 else 0)
    case 1 =>
      var kept := Filter(tables.policy, KeepsRule(id));
      (tables.(policy := kept), |tables.policy| - |kept|)
    case 2 =>
      var kept := Filter(tables.decisions, KeepsDecision(id));
      (tables.(decisions := kept), |tables.decisions| - |kept|)
    case 3 =>
      if tables.members.None? then (tables, 0)
      else
        var kept := Filter(tables.members.value, KeepsMember(id));
        (tables.(members := Some(kept)), |tables.members.value| - |kept|)
    case _ =>
      (tables.(outbox := CancelAll(tables.outbox, id, name)), CountCancelled(tables.outbox, id, name))
  }

  /** Steps `0..k` in order: the tables they leave and the counts they report. */
  function Steps(k: nat, tables: Tables, id: string, name: Option<string>): (done: (Tables, seq<nat>))
    requires k <= STEPS
    ensures |done.1| == k
  {
    if k == 0 then (tables, [])
    else
      var (before, counts) := Steps(k - 1, tables, id, name);
      var (after, n) := Step(k - 1, before, id, name);
      (after, counts + [n])
  }

  // ----- naming the peer -----

  /** The command's argument: an endpoint id, or any other text, which is a petname. */
  datatype Target = Id(id: string) | Petname(name: string)

  datatype Resolution = Peer(id: string, name: Option<string>) | UnknownName | AmbiguousName

  function StoredName(tables: Tables, id: string): Option<string> {
    if id in tables.peers then tables.peers[id] else None
  }

  function Named(tables: Tables, name: string): set<string> {
    set id | id in tables.peers && tables.peers[id] == Some(name)
  }

  ghost function FindTarget(tables: Tables, target: Target): Resolution {
    match target
    case Id(id) => Peer(id, StoredName(tables, id))
    case Petname(name) =>
      if Named(tables, name) == {} then UnknownName
      else if exists id :: Named(tables, name) == {id} then
        var id :| Named(tables, name) == {id};
        Peer(id, Some(name))
      else AmbiguousName
  }

  /** Either way of naming a peer finds the petname stored with it. */
  lemma ResolvedNameIsStored(tables: Tables, target: Target)
    requires FindTarget(tables, target).Peer?
    ensures FindTarget(tables, target).name == StoredName(tables, FindTarget(tables, target).id)
    ensures target.Petname? ==> Named(tables, target.name) == {FindTarget(tables, target).id}
  {
    if target.Petname? {
      var found := FindTarget(tables, target).id;
      assert Named(tables, target.name) == {found};
      assert found in Named(tables, target.name);
    }
  }

  datatype Removal = Removed(id: string, name: Option<string>, counts: seq<nat>) | NothingToRemove | Unresolved(why: Resolution)

  function Sum(counts: seq<nat>): nat {
    if counts == [] then 0 else counts[0] + Sum(counts[1..])
  }

  class NodeDatabase {
    var peers: map<string, Option<string>>
    var policy: seq<PolicyRow>
    var decisions: seq<DecisionRow>
    var members: Option<seq<Member>>
    var outbox: seq<OutboxRow>

    function View(): Tables
      reads this
    {
      Tables(peers, policy, decisions, members, outbox)
    }

    method FindPeer(target: Target) returns (found: Resolution)
      ensures found == FindTarget(View(), target)
    {
      match target
      case Id(id) => found := Peer(id, StoredName(View(), id));
      case Petname(name) =>
        var ids := Named(View(), name);
        if ids == {} {
          found := UnknownName;
        } else {
          var id :| id in ids;
          if ids == {id} {
            found := Peer(id, Some(name));
          } else {
            found := AmbiguousName;
          }
        }
    }

    method Execute(i: nat, id: string, name: Option<string>) returns (affected: nat)
      requires i < STEPS
      modifies this
      ensures (View(), affected) == Step(i, old(View()), id, name)
    {
      match i
      case 0 =>
        affected := if id in peers then 1 else 0;
        peers := peers - {id};
      case 1 =>
        var kept := Filter(policy, KeepsRule(id));
        affected := |policy| - |kept|;
        policy := kept;
      case 2 =>
        var kept := Filter(decisions, KeepsDecision(id));
        affected := |decisions| - |kept|;
        decisions := kept;
      case 3 =>
        affected := 0;
        if members.Some? {
          var kept := Filter(members.value, KeepsMember(id));
          affected := |members.value| - |kept|;
          members := Some(kept);
        }
      case _ =>
        affected := CountCancelled(outbox, id, name);
        outbox := CancelAll(outbox, id, name);
    }

    /** `peer_remove_with`, stopped after the first `k` steps when `k` is less than all of them. */
    method PeerRemove(target: Target, k: nat) returns (removal: Removal)
      requires k <= STEPS
      modifies this
      ensures var found := FindTarget(old(View()), target);
              if !found.Peer? then View() == old(View()) && removal == Unresolved(found)
              else
                var (after, counts) := Steps(k, old(View()), found.id, found.name);
                && View() == after
                && removal == if Sum(counts) > 0 then Removed(found.id, found.name, counts) else NothingToRemove
    {
      var found := FindPeer(target);
      if !found.Peer? {
        return Unresolved(found);
      }
      var hasRooms := members.Some?;
      var n := [];
      for i := 0 to k
        invariant (View(), n) == Steps(i, old(View()), found.id, found.name)
        invariant hasRooms == members.Some?
      {
        if i == 3 && !hasRooms {
          n := n + [0];
          continue;
        }
        var affected := Execute(i, found.id, found.name);
        n := n + [affected];
      }
      return if Sum(n) > 0 then Removed(found.id, found.name, n) else NothingToRemove;
    }
  }

  // ----- the whole effect, and who is not touched -----

  /** The tables after `k` steps, table by table. */
  function Removing(k: nat, tables: Tables, id: string, name: Option<string>): Tables {
    Tables(
      if k > 0 then tables.peers - {id} else tables.peers,
      if k > 1 then Filter(tables.policy, KeepsRule(id)) else tables.policy,
      if k > 2 then Filter(tables.decisions, KeepsDecision(id)) else tables.decisions,
      if k > 3 && tables.members.Some? then Some(Filter(tables.members.value, KeepsMember(id))) else tables.members,
      if k > 4 then CancelAll(tables.outbox, id, name) else tables.outbox)
  }

  lemma {:induction false} StepsByTable(k: nat, tables: Tables, id: string, name: Option<string>)
    requires k <= STEPS
    ensures Steps(k, tables, id, name).0 == Removing(k, tables, id, name)
    ensures forall i :: 0 <= i < k ==> Steps(k, tables, id, name).1[i] == Step(i, tables, id, name).1
  {
    if k > 0 {
      StepsByTable(k - 1, tables, id, name);
    }
  }

  function RulesFor(peer: string): PolicyRow -> bool {
    (row: PolicyRow) => row.peer == peer
  }

  function Denials(): PolicyRow -> bool {
    (row: PolicyRow) => row.effect == "deny"
  }

  /** Stopped anywhere, a removal leaves every row of every other peer, and every delivered message. */
  lemma RemovalTouchesNobodyElse(k: nat, tables: Tables, id: string, name: Option<string>)
    requires k <= STEPS
    ensures var after := Steps(k, tables, id, name).0;
            && after.peers - {id} == tables.peers - {id}
            && (forall other {:trigger RulesFor(other)} :: other != id ==>
                  Filter(after.policy, RulesFor(other)) == Filter(tables.policy, RulesFor(other)))
            && Filter(after.policy, Denials()) == Filter(tables.policy, Denials())
            && Filter(after.decisions, KeepsDecision(id)) == Filter(tables.decisions, KeepsDecision(id))
            && (tables.members.Some? <==> after.members.Some?)
            && (tables.members.Some? ==>
                  Filter(after.members.value, KeepsMember(id)) == Filter(tables.members.value, KeepsMember(id)))
            && |after.outbox| == |tables.outbox|
            && (forall i :: 0 <= i < |tables.outbox| && !Cancels(tables.outbox[i], id, name) ==>
                  after.outbox[i] == tables.outbox[i])
  {
    StepsByTable(k, tables, id, name);
    forall other {:trigger RulesFor(other)} | other != id
      ensures Filter(Filter(tables.policy, KeepsRule(id)), RulesFor(other)) == Filter(tables.policy, RulesFor(other))
    {
      FilterWithin(tables.policy, KeepsRule(id), RulesFor(other));
    }
    FilterWithin(tables.policy, KeepsRule(id), Denials());
    FilterWithin(tables.decisions, KeepsDecision(id), KeepsDecision(id));
    if tables.members.Some? {
      FilterWithin(tables.members.value, KeepsMember(id), KeepsMember(id));
    }
  }

  /** A whole removal leaves nothing that would reach the peer or re-admit it. */
  lemma RemovalClears(tables: Tables, id: string, name: Option<string>)
    ensures var after := Steps(STEPS, tables, id, name).0;
            && id !in after.peers
            && (forall row :: row in after.policy && row.peer == id ==> row.effect == "deny")
            && (forall row :: row in after.decisions ==> row.peer != id)
            && (after.members.Some? ==> forall row :: row in after.members.value ==> row.member != id)
            && (forall i :: 0 <= i < |after.outbox| && Undelivered(after.outbox[i]) ==>
                  after.outbox[i].peer != id && name != Some(after.outbox[i].peer))
            && |after.outbox| == |tables.outbox|
            && (forall i :: 0 <= i < |tables.outbox| && Cancels(tables.outbox[i], id, name) ==>
                  after.outbox[i] == tables.outbox[i].(status := "error", error := "peer removed"))
  {
    StepsByTable(STEPS, tables, id, name);
  }

  // ----- interruption -----

  /** Undelivered and addressed by petname only. */
  predicate ByNameOnly(row: OutboxRow, id: string, name: Option<string>) {
    Undelivered(row) && row.peer != id && name == Some(row.peer)
  }

  function CountByNameOnly(outbox: seq<OutboxRow>, id: string, name: Option<string>): nat {
    if outbox == [] then 0
    else (if ByNameOnly(outbox[0], id, name) then 1 else 0) + CountByNameOnly(outbox[1..], id, name)
  }

  lemma {:induction false} CancelCounts(outbox: seq<OutboxRow>, id: string, name: Option<string>)
    ensures CountCancelled(outbox, id, name) == CountCancelled(outbox, id, None) + CountByNameOnly(outbox, id, name)
    ensures CountCancelled(CancelAll(outbox, id, name), id, None) == 0
  {
    if outbox != [] {
      CancelCounts(outbox[1..], id, name);
      assert CancelAll(outbox, id, name)[1..] == CancelAll(outbox[1..], id, name);
    }
  }

  lemma {:induction false} NoneByNameOnly(outbox: seq<OutboxRow>, id: string, name: Option<string>)
    ensures CountByNameOnly(outbox, id, name) == 0 <==>
            forall i :: 0 <= i < |outbox| ==> !ByNameOnly(outbox[i], id, name)
  {
    if outbox != [] {
      NoneByNameOnly(outbox[1..], id, name);
      assert forall i :: 0 < i < |outbox| ==> outbox[i] == outbox[1..][i - 1];
    }
  }

  lemma FilterTwice<T(!new)>(rows: seq<T>, keep: T -> bool)
    ensures Filter(Filter(rows, keep), keep) == Filter(rows, keep)
  {
    FilterAll(Filter(rows, keep), keep);
  }

  /** Removing again what a run stopped after `k` steps has left. */
  lemma RemovingAgain(k: nat, tables: Tables, id: string, name: Option<string>, again: Option<string>)
    requires k <= STEPS
    ensures var torn := Removing(k, tables, id, name);
            Removing(STEPS, torn, id, again)
            == Removing(STEPS, tables, id, name).(outbox := CancelAll(torn.outbox, id, again))
  {
    FilterTwice(tables.policy, KeepsRule(id));
    FilterTwice(tables.decisions, KeepsDecision(id));
    if tables.members.Some? {
      FilterTwice(tables.members.value, KeepsMember(id));
    }
    RemoveTwice(tables.peers, id);
    var torn := Removing(k, tables, id, name);
    var rerun := Removing(STEPS, torn, id, again);
    var whole := Removing(STEPS, tables, id, name);
    assert rerun.peers == whole.peers;
    assert rerun.policy == whole.policy;
    assert rerun.decisions == whole.decisions;
    assert rerun.members == whole.members;
  }

  lemma RemoveTwice(peers: map<string, Option<string>>, id: string)
    ensures peers - {id} - {id} == peers - {id}
  {
  }

  /** A step already taken affects no row the second time; one not yet taken affects what it would have. */
  lemma CountsAgain(k: nat, tables: Tables, id: string, name: Option<string>, again: Option<string>, i: nat)
    requires k <= STEPS && i < 4
    ensures Step(i, Removing(k, tables, id, name), id, again).1 == if k > i then 0 else Step(i, tables, id, name).1
  {
    if i == 1 {
      FilterTwice(tables.policy, KeepsRule(id));
    } else if i == 2 {
      FilterTwice(tables.decisions, KeepsDecision(id));
    } else if i == 3 && tables.members.Some? {
      FilterTwice(tables.members.value, KeepsMember(id));
    }
  }

  /** Cancelling by id alone leaves exactly the rows addressed by petname. */
  lemma CancelAgain(outbox: seq<OutboxRow>, id: string, name: Option<string>)
    ensures CancelAll(CancelAll(outbox, id, name), id, None) == CancelAll(outbox, id, name)
    ensures forall i :: 0 <= i < |outbox| ==>
              CancelAll(outbox, id, None)[i]
              == if ByNameOnly(outbox[i], id, name) then outbox[i] else CancelAll(outbox, id, name)[i]
    ensures CancelAll(outbox, id, None) == CancelAll(outbox, id, name) <==> CountByNameOnly(outbox, id, name) == 0
  {
    NoneByNameOnly(outbox, id, name);
    if i :| 0 <= i < |outbox| && ByNameOnly(outbox[i], id, name) {
      assert CancelAll(outbox, id, None)[i] != CancelAll(outbox, id, name)[i];
    }
  }

  /** `k` steps of a removal by id or by petname, then a full re-run by id: every table but the outbox ends as
      one uninterrupted removal leaves it, and the outbox too unless the petname was forgotten while rows
      addressed by it waited. */
  lemma InterruptedRemovalConverges(k: nat, tables: Tables, target: Target)
    requires k <= STEPS && FindTarget(tables, target).Peer?
    ensures var Peer(id, name) := FindTarget(tables, target);
            var torn := Steps(k, tables, id, name).0;
            var rerun := Steps(STEPS, torn, id, FindTarget(torn, Id(id)).name).0;
            var whole := Steps(STEPS, tables, id, name).0;
            && rerun.(outbox := whole.outbox) == whole
            && (rerun == whole <==> k == 0 || k == STEPS || CountByNameOnly(tables.outbox, id, name) == 0)
            && |rerun.outbox| == |whole.outbox| == |tables.outbox|
            && (forall i :: 0 <= i < |tables.outbox| ==>
                  rerun.outbox[i] == if 0 < k < STEPS && ByNameOnly(tables.outbox[i], id, name)
                                     then tables.outbox[i] else whole.outbox[i])
  {
    var Peer(id, name) := FindTarget(tables, target);
    ResolvedNameIsStored(tables, target);
    var torn := Removing(k, tables, id, name);
    var again := StoredName(torn, id);
    StepsByTable(k, tables, id, name);
    StepsByTable(STEPS, torn, id, again);
    StepsByTable(STEPS, tables, id, name);
    RemovingAgain(k, tables, id, name, again);
    CancelAgain(tables.outbox, id, name);
    assert k > 0 ==> again == None;
  }

  /** Why the re-run must name the id: after the first step the petname finds nobody. */
  lemma PetnameIsForgotten(k: nat, tables: Tables, name: string)
    requires k <= STEPS && FindTarget(tables, Petname(name)).Peer?
    ensures var Peer(id, stored) := FindTarget(tables, Petname(name));
            FindTarget(Steps(k, tables, id, stored).0, Petname(name))
            == if k == 0 then Peer(id, stored) else UnknownName
  {
    var Peer(id, stored) := FindTarget(tables, Petname(name));
    ResolvedNameIsStored(tables, Petname(name));
    StepsByTable(k, tables, id, stored);
    if k > 0 {
      assert Named(Removing(k, tables, id, stored), name) == Named(tables, name) - {id};
    }
  }

  /** The counts of the two runs add up to those of one, short only of the messages left behind. */
  lemma InterruptedCountsAddUp(k: nat, tables: Tables, target: Target, i: nat)
    requires k <= STEPS && i < STEPS && FindTarget(tables, target).Peer?
    ensures var Peer(id, name) := FindTarget(tables, target);
            var (torn, first) := Steps(k, tables, id, name);
            var second := Steps(STEPS, torn, id, FindTarget(torn, Id(id)).name).1;
            var whole := Steps(STEPS, tables, id, name).1;
            (if i < k then first[i] else 0) + second[i]
            == whole[i] - (if i == 4 && 0 < k < STEPS then CountByNameOnly(tables.outbox, id, name) else 0)
  {
    var Peer(id, name) := FindTarget(tables, target);
    ResolvedNameIsStored(tables, target);
    var torn := Removing(k, tables, id, name);
    var again := StoredName(torn, id);
    StepsByTable(k, tables, id, name);
    StepsByTable(STEPS, torn, id, again);
    StepsByTable(STEPS, tables, id, name);
    CancelCounts(tables.outbox, id, name);
    assert k > 0 ==> again == None;
    if i < 4 {
      CountsAgain(k, tables, id, name, again, i);
    } else {
      assert Step(4, torn, id, again).1 == CountCancelled(torn.outbox, id, again);
    }
  }

  // ----- what removal means for policy -----

  function AfterRemoval(policy: seq<PolicyRow>, id: string): seq<PolicyRow> {
    Filter(policy, KeepsRule(id))
  }

  /** The peer's own deny rules on this table: the rules of its that a removal keeps. */
  predicate HasOwnDenial(policy: seq<PolicyRow>, id: string, table: string, action: string) {
    exists row :: row in policy && row.peer == id && row.effect == "deny" && Matches(row, id, table, action)
  }

  function RulesForEveryone(policy: seq<PolicyRow>): seq<PolicyRow> {
    Filter(policy, RulesFor("*"))
  }

  /** How a table resolves for the removed peer, whatever the effects: denied while a deny rule of its own
      matches, and otherwise as the rules for everyone say. */
  lemma {:induction false} MeaningAfterRemoval(policy: seq<PolicyRow>, id: string, table: string, action: string)
    requires id != "*"
    ensures Meaning(Rows(AfterRemoval(policy, id)), id, table, action) ==
            if HasOwnDenial(policy, id, table, action) then Denied
            else Meaning(Rows(RulesForEveryone(policy)), id, table, action)
  {
    var after, everyone := Rows(AfterRemoval(policy, id)), Rows(RulesForEveryone(policy));
    if HasOwnDenial(policy, id, table, action) {
      var deny :| deny in policy && deny.peer == id && deny.effect == "deny" && Matches(deny, id, table, action);
      var top := DecisiveExists(after, deny, id, table, action);
      assert top.peer == id && top.effect == "deny";
    } else {
      forall row
        ensures row in after && Matches(row, id, table, action) <==> row in everyone && Matches(row, id, table, action)
      {
      }
      SameMatches(after, everyone, id, table, action);
    }
  }

  /** Rows that do not match do not matter. */
  lemma SameMatches(a: set<PolicyRow>, b: set<PolicyRow>, peer: string, table: string, action: string)
    requires forall row :: row in a && Matches(row, peer, table, action) <==> row in b && Matches(row, peer, table, action)
    ensures Meaning(a, peer, table, action) == Meaning(b, peer, table, action)
  {
    forall row ensures Decisive(row, a, peer, table, action) <==> Decisive(row, b, peer, table, action) {
    }
  }

  /** What keeps a removed peer denied on a table: a deny rule of its own, or the rules for everyone. */
  ghost predicate StaysDenied(policy: seq<PolicyRow>, id: string, table: string, action: string) {
    HasOwnDenial(policy, id, table, action) || Meaning(Rows(RulesForEveryone(policy)), id, table, action) == Denied
  }

  /** A removal unblocks the peer on a table exactly when what denied it there was a rule of the peer's own
      that is not a deny rule, with no deny rule of the peer and no denial of everyone behind it. */
  lemma DenialSurvives(policy: seq<PolicyRow>, id: string, table: string, action: string)
    requires id != "*"
    ensures Meaning(Rows(AfterRemoval(policy, id)), id, table, action) == Denied <==> StaysDenied(policy, id, table, action)
  {
    MeaningAfterRemoval(policy, id, table, action);
  }

  /** A denial backed by a deny rule, or by a rule for everyone, survives the removal. */
  lemma {:induction false} BackedDenialSurvives(policy: seq<PolicyRow>, id: string, table: string, action: string, row: PolicyRow)
    requires Decisive(row, Rows(policy), id, table, action) && row.effect != "allow"
    requires row.effect == "deny" || row.peer != id
    ensures Meaning(Rows(AfterRemoval(policy, id)), id, table, action) == Denied
  {
    assert row in AfterRemoval(policy, id);
    assert Decisive(row, Rows(AfterRemoval(policy, id)), id, table, action);
  }

  predicate AllowsAndDeniesOnly(policy: seq<PolicyRow>) {
    forall row :: row in policy ==> row.effect == "allow" || row.effect == "deny"
  }

  /** With the documented effects a removal never unblocks the peer on any table. */
  lemma {:induction false} RemovalNeverUnblocks(policy: seq<PolicyRow>, id: string, table: string, action: string)
    requires AllowsAndDeniesOnly(policy)
    ensures Meaning(Rows(policy), id, table, action) == Denied
            ==> Meaning(Rows(AfterRemoval(policy, id)), id, table, action) == Denied
  {
    if Meaning(Rows(policy), id, table, action) == Denied {
      var row :| Decisive(row, Rows(policy), id, table, action) && row.effect != "allow";
      BackedDenialSurvives(policy, id, table, action, row);
    }
  }

  /** Whole requests, whatever the effects: a removed peer's request is denied exactly when it uses a denied
      construct or some table of it stays denied. */
  lemma RequestDeniedAfterRemoval(policy: seq<PolicyRow>, request: Request)
    requires request.peer != "*"
    ensures PolicyAnswer(Some(AfterRemoval(policy, request.peer)), request).Deny? <==>
            request.footprint.HasDenied()
            || exists t :: t in Resources(request.footprint) && StaysDenied(policy, request.peer, t, request.action)
  {
    FootprintMeaning(AfterRemoval(policy, request.peer), request);
    forall t | t in Resources(request.footprint)
      ensures Meaning(Rows(AfterRemoval(policy, request.peer)), request.peer, t, request.action) == Denied
              <==> StaysDenied(policy, request.peer, t, request.action)
    {
      DenialSurvives(policy, request.peer, t, request.action);
    }
  }

  /** With the documented effects no request of the removed peer is unblocked. */
  lemma RemovalNeverUnblocksRequests(policy: seq<PolicyRow>, request: Request)
    requires AllowsAndDeniesOnly(policy)
    ensures PolicyAnswer(Some(policy), request).Deny?
            ==> PolicyAnswer(Some(AfterRemoval(policy, request.peer)), request).Deny?
  {
    FootprintMeaning(policy, request);
    FootprintMeaning(AfterRemoval(policy, request.peer), request);
    forall t | t in Resources(request.footprint)
      ensures Meaning(Rows(policy), request.peer, t, request.action) == Denied
              ==> Meaning(Rows(AfterRemoval(policy, request.peer)), request.peer, t, request.action) == Denied
    {
      RemovalNeverUnblocks(policy, request.peer, t, request.action);
    }
  }

  lemma {:induction false} RemovalKeepsOthers(policy: seq<PolicyRow>, id: string, other: string, table: string, action: string)
    requires id != "*" && other != id
    ensures Meaning(Rows(AfterRemoval(policy, id)), other, table, action) == Meaning(Rows(policy), other, table, action)
  {
    var before, after := Rows(policy), Rows(AfterRemoval(policy, id));
    forall row
      ensures row in before && Matches(row, other, table, action) <==> row in after && Matches(row, other, table, action)
    {
    }
    forall row ensures Decisive(row, before, other, table, action) <==> Decisive(row, after, other, table, action) {
    }
  }

  /** Whatever the removed peer is still allowed, everyone is: every deciding row is a `*` row. */
  lemma RemainingAllowIsForEveryone(policy: seq<PolicyRow>, id: string, table: string, action: string)
    requires Meaning(Rows(AfterRemoval(policy, id)), id, table, action) == Allowed
    ensures exists row :: Decisive(row, Rows(AfterRemoval(policy, id)), id, table, action)
    ensures forall row :: Decisive(row, Rows(AfterRemoval(policy, id)), id, table, action) ==>
              row.effect == "allow" && (id != "*" ==> row.peer == "*") && row in policy
  {
    var some :| some in AfterRemoval(policy, id) && Matches(some, id, table, action);
    var top := DecisiveExists(Rows(AfterRemoval(policy, id)), some, id, table, action);
  }

  /** Why the effects matter: a rule that is neither allow nor deny blocks, yet removal deletes it. */
  lemma OtherEffectsMayUnblock(id: string, table: string, action: string)
    requires id != "*"
    ensures var policy := [PolicyRow(id, table, action, "price", ""), PolicyRow("*", "*", action, "allow", "")];
            && Meaning(Rows(policy), id, table, action) == Denied
            && Meaning(Rows(AfterRemoval(policy, id)), id, table, action) == Allowed
  {
    var price, everyone := PolicyRow(id, table, action, "price", ""), PolicyRow("*", "*", action, "allow", "");
    var policy := [price, everyone];
    assert Rows(policy) == {price, everyone};
    assert Decisive(price, Rows(policy), id, table, action);
    assert policy[1..] == [everyone] && everyone in AfterRemoval(policy, id);
  }

  // ----- what is reported, and whom a petname names -----

  /** A petname is the one peer stored under it; with none there is nobody, with two nobody is picked. */
  lemma PetnameNames(tables: Tables, name: string, id: string)
    ensures FindTarget(tables, Petname(name)) == Peer(id, Some(name)) <==>
            && id in tables.peers && tables.peers[id] == Some(name)
            && forall other :: other in tables.peers && tables.peers[other] == Some(name) ==> other == id
    ensures FindTarget(tables, Petname(name)) == UnknownName <==>
            forall other :: other in tables.peers ==> tables.peers[other] != Some(name)
  {
    assert forall other :: other in Named(tables, name) <==> other in tables.peers && tables.peers[other] == Some(name);
    if FindTarget(tables, Petname(name)).Peer? {
      var found := FindTarget(tables, Petname(name)).id;
      ResolvedNameIsStored(tables, Petname(name));
      assert found in Named(tables, name);
    }
    if id in Named(tables, name) && forall other :: other in Named(tables, name) ==> other == id {
      assert Named(tables, name) == {id};
    }
  }

  lemma {:induction false} SumIsZero(counts: seq<nat>)
    ensures Sum(counts) == 0 <==> forall i :: 0 <= i < |counts| ==> counts[i] == 0
  {
    if counts != [] {
      SumIsZero(counts[1..]);
      assert forall i :: 0 < i < |counts| ==> counts[i] == counts[1..][i - 1];
    }
  }

  /** A removal that changes nothing reports that there was nothing to remove, and one that changes anything does not. */
  lemma NothingToRemoveMeansNothing(tables: Tables, id: string, name: Option<string>)
    ensures var (after, counts) := Steps(STEPS, tables, id, name);
            (Sum(counts) == 0 <==> forall i :: 0 <= i < STEPS ==> counts[i] == 0)
            && (Sum(counts) == 0 <==> after == tables)
  {
    var (after, counts) := Steps(STEPS, tables, id, name);
    SumIsZero(counts);
    StepsByTable(STEPS, tables, id, name);
    forall i: nat | i < STEPS ensures counts[i] == 0 <==> Step(i, tables, id, name).0 == tables {
      StepOfNothing(i, tables, id, name);
    }
    assert after == Removing(STEPS, tables, id, name);
    if forall i :: 0 <= i < STEPS ==> counts[i] == 0 {
      assert Step(0, tables, id, name).0 == tables && Step(1, tables, id, name).0 == tables
             && Step(2, tables, id, name).0 == tables && Step(3, tables, id, name).0 == tables
             && Step(4, tables, id, name).0 == tables;
    } else {
      var i: nat :| i < STEPS && counts[i] != 0;
      ChangedStays(i, tables, id, name);
    }
  }

  lemma StepOfNothing(i: nat, tables: Tables, id: string, name: Option<string>)
    requires i < STEPS
    ensures Step(i, tables, id, name).1 == 0 <==> Step(i, tables, id, name).0 == tables
  {
    if i == 0 {
      assert id in tables.peers <==> tables.peers - {id} != tables.peers;
    } else if i == 1 {
      FilterCounts(tables.policy, KeepsRule(id));
    } else if i == 2 {
      FilterCounts(tables.decisions, KeepsDecision(id));
    } else if i == 3 {
      if tables.members.Some? {
        FilterCounts(tables.members.value, KeepsMember(id));
      }
    } else {
      CancelChanges(tables.outbox, id, name);
    }
  }

  lemma ChangedStays(i: nat, tables: Tables, id: string, name: Option<string>)
    requires i < STEPS && Step(i, tables, id, name).0 != tables
    ensures Removing(STEPS, tables, id, name) != tables
  {
  }

  lemma {:induction false} FilterCounts<T(!new)>(rows: seq<T>, keep: T -> bool)
    ensures |Filter(rows, keep)| == |rows| <==> Filter(rows, keep) == rows
  {
    if rows != [] {
      FilterCounts(rows[1..], keep);
      assert rows == [rows[0]] + rows[1..];
    }
  }

  lemma {:induction false} CancelChanges(outbox: seq<OutboxRow>, id: string, name: Option<string>)
    ensures CountCancelled(outbox, id, name) == 0 <==> CancelAll(outbox, id, name) == outbox
  {
    if outbox != [] {
      CancelChanges(outbox[1..], id, name);
      assert CancelAll(outbox, id, name)[1..] == CancelAll(outbox[1..], id, name);
      assert CancelAll(outbox, id, name) == outbox <==>
             Cancelled(outbox[0], id, name) == outbox[0] && CancelAll(outbox[1..], id, name) == outbox[1..] by {
        assert CancelAll(outbox, id, name) == [Cancelled(outbox[0], id, name)] + CancelAll(outbox[1..], id, name);
        assert outbox == [outbox[0]] + outbox[1..];
      }
    }
  }

  /** Queued and sent messages to the peer are cancelled, by id or by the petname it had; all others stay. */
  lemma OutboxAfterRemoval(tables: Tables, id: string, name: Option<string>, i: nat)
    requires i < |tables.outbox|
    ensures var after := Steps(STEPS, tables, id, name).0.outbox;
            |after| == |tables.outbox| &&
            var row, row' := tables.outbox[i], after[i];
            if row.status in {"queued", "sent"} && (row.peer == id || name == Some(row.peer))
            then row' == row.(status := "error", error := "peer removed") else row' == row
  {
    StepsByTable(STEPS, tables, id, name);
  }

  /** The peers row goes first: interrupted anywhere after that, the peer is refused already. */
  lemma FirstStepRefuses(tables: Tables, id: string, name: Option<string>, k: nat)
    requires 1 <= k <= STEPS
    ensures Steps(1, tables, id, name).0 == tables.(peers := tables.peers - {id})
    ensures id !in Steps(k, tables, id, name).0.peers
  {
    StepsByTable(1, tables, id, name);
    StepsByTable(k, tables, id, name);
  }
}
