/** One process serves a node directory at a time: the lease, the resources it guards, and the
    owner record, over any interleaving of starts, graceful shutdowns, probes and crashes. */
module Serving {
  import opened AuthTypes

  // ----- taking the lease -----

  /** What one `try_lock` on the lease file answers. */
  datatype Try = Locked | WouldBlock | Unsupported | Failed

  datatype Acquired = HeldLease | AlreadyServing | UnsupportedFilesystem | LockError

  /** `ServeLease::acquire` over the answers of successive tries: a probe's instant of a shared lock is
      waited out, so only the fourth refusal in a row counts. */
  method Acquire(tries: nat -> Try) returns (result: Acquired, used: nat)
    ensures 1 <= used <= 4
    ensures forall i :: 0 <= i < used - 1 ==> tries(i) == WouldBlock
    ensures result == match tries(used - 1)
              case Locked => HeldLease
              case WouldBlock => AlreadyServing
              case Unsupported => UnsupportedFilesystem
              case Failed => LockError
    ensures result == AlreadyServing ==> used == 4
  {
    var attempts := 0;
    while true
      invariant 0 <= attempts <= 3
      invariant forall i :: 0 <= i < attempts ==> tries(i) == WouldBlock
      decreases 3 - attempts
    {
      match tries(attempts) {
        case Locked => return HeldLease, attempts + 1;
        case WouldBlock =>
          if attempts >= 3 {
            return AlreadyServing, attempts + 1;
          }
          attempts := attempts + 1;
        case Unsupported => return UnsupportedFilesystem, attempts + 1;
        case Failed => return LockError, attempts + 1;
      }
    }
  }

  // ----- the directory and its processes -----

  datatype Resource = Lease | Database | Transport | Outbox | Socket | OwnerTcp | Presence

  /** The order `start_node_full` takes them in, and the order `shutdown` lets go of them. */
  const START: seq<Resource> := [Lease, Database, Transport, Outbox, Socket, OwnerTcp, Presence]
  const STOP: seq<Resource> := [Socket, OwnerTcp, Outbox, Presence, Transport, Database, Lease]

  type Pid = nat

  /** What `rsntr.owner` says. */
  datatype Record = Record(port: nat, token: string, pid: Pid)

  datatype Phase = Off | Starting(taken: nat) | Up | Stopping(dropped: nat)

  /** `tcp` is the bound loopback port with its token. */
  datatype Process = Process(phase: Phase, held: set<Resource>, tcp: Option<Record>)

  const GONE := Process(Off, {}, None)

  /** The lease file's lock, who probes it, the two description files, and the processes. */
  datatype Directory = Directory(
    lock: Option<Pid>,
    probing: set<Pid>,
    info: Option<Pid>,
    record: Option<Record>,
    processes: map<Pid, Process>)
  {
    function At(pid: Pid): Process {
      if pid in processes then processes[pid] else GONE
    }
  }

  datatype Step =
    | Start(pid: Pid, binds: bool, port: nat, token: string)   // the next step of a start
    | Stop(pid: Pid)                                           // the next step of a graceful shutdown
    | Crash(pid: Pid)
    | Probe(pid: Pid)                                          // a shared lock, for an instant
    | EndProbe(pid: Pid)

  /** The socket and the loopback port are optional: serving goes on without them. */
  predicate Optional(r: Resource) {
    r == Socket || r == OwnerTcp
  }

  function Put(d: Directory, pid: Pid, p: Process): Directory {
    d.(processes := d.processes[pid := p])
  }

  function Take(d: Directory, pid: Pid, p: Process, r: Resource, binds: bool, port: nat, token: string): Directory
    requires p.phase.Starting?
  {
    var next := p.(phase := Starting(p.phase.taken + 1));
    if Optional(r) && !binds then Put(d, pid, next)
    else if r == OwnerTcp then
      var record := Record(port, token, pid);
      Put(d.(record := Some(record)), pid, next.(held := p.held + {r}, tcp := Some(record)))
    else Put(d, pid, next.(held := p.held + {r}))
  }

  function Drop(d: Directory, pid: Pid, p: Process, r: Resource): Directory
    requires p.phase.Stopping?
  {
    var next := p.(phase := if r == Lease then Off else Stopping(p.phase.dropped + 1), held := p.held - {r});
    if r == OwnerTcp then
      if OwnerTcp in p.held then Put(d.(record := None), pid, next.(tcp := None)) else Put(d, pid, next)
    else if r == Lease then Put(d.(lock := None), pid, next)
    else Put(d, pid, next)
  }

  function Next(d: Directory, step: Step): Directory {
    match step
    case Start(pid, binds, port, token) =>
      var p := d.At(pid);
      (match p.phase
       case Off =>
         if d.lock.None? && d.probing == {}
         then Put(d.(lock := Some(pid), info := Some(pid)), pid, Process(Starting(1), {Lease}, None))
         else d
       case Starting(taken) =>
         if taken < |START| then Take(d, pid, p, START[taken], binds, port, token) else Put(d, pid, p.(phase := Up))
       case _ => d)
    case Stop(pid) =>
      var p := d.At(pid);
      (match p.phase
       case Up => Put(d, pid, p.(phase := Stopping(0)))
       case Stopping(dropped) => if dropped < |STOP| then Drop(d, pid, p, STOP[dropped]) else d
       case _ => d)
    case Crash(pid) =>
      Put(d.(lock := if d.lock == Some(pid) then None else d.lock, probing := d.probing - {pid}), pid, GONE)
    case Probe(pid) => if d.lock.None? then d.(probing := d.probing + {pid}) else d
    case EndProbe(pid) => d.(probing := d.probing - {pid})
  }

  function Run(d: Directory, steps: seq<Step>): Directory
    decreases |steps|
  {
    if steps == [] then d else Run(Next(d, steps[0]), steps[1..])
  }

  /** A directory nobody serves, whatever earlier crashes left in its files. */
  function Unserved(info: Option<Pid>, record: Option<Record>): Directory {
    Directory(None, {}, info, record, map[])
  }

  // ----- the invariant -----

  /** A process's own bookkeeping: what it may hold at this point, and the lease whenever anything. */
  predicate Tidy(p: Process) {
    && (match p.phase
        case Off => p.held == {}
        case Starting(taken) => 1 <= taken <= |START| && Lease in p.held
        case Up => Lease in p.held
        case Stopping(dropped) => dropped < |STOP| && Lease in p.held && (forall r :: r in p.held ==> r in STOP[dropped..]))
    && (p.tcp.Some? <==> OwnerTcp in p.held)
  }

  /** The lock says who holds the lease, and a bound port is the one on record. */
  predicate Agrees(d: Directory, pid: Pid) {
    var p := d.At(pid);
    && Tidy(p)
    && (Lease in p.held <==> d.lock == Some(pid))
    && (p.tcp.Some? ==> d.record == p.tcp && p.tcp.value.pid == pid)
  }

  ghost predicate Ok(d: Directory) {
    (forall pid: Pid :: Agrees(d, pid)) && (d.lock.Some? ==> d.probing == {})
  }

  /** Anything held implies the lease held. */
  lemma HeldImpliesLease(p: Process, r: Resource)
    requires Tidy(p) && r in p.held
    ensures Lease in p.held
  {
  }

  /** Only the lease holder can have a port on record. */
  lemma OthersHaveNothing(d: Directory, pid: Pid, other: Pid)
    requires Agrees(d, pid) && Agrees(d, other) && pid != other && d.lock == Some(pid)
    ensures d.At(other).held == {} && d.At(other).tcp == None
  {
    var p := d.At(other);
    if r :| r in p.held {
      HeldImpliesLease(p, r);
    }
  }

  lemma StartAgrees(d: Directory, step: Step, pid: Pid)
    requires Ok(d) && step.Start?
    ensures Agrees(Next(d, step), pid)
  {
    assert Agrees(d, pid) && Agrees(d, step.pid);
    var p := d.At(step.pid);
    if p.phase.Starting? {
      assert d.lock == Some(step.pid);
      if pid != step.pid {
        OthersHaveNothing(d, step.pid, pid);
      }
    }
  }

  lemma OrderOfStop(dropped: nat)
    requires dropped < |STOP|
    ensures STOP[dropped] == Lease <==> dropped == |STOP| - 1
    ensures STOP[dropped] !in STOP[dropped + 1..]
    ensures forall r :: r in STOP[dropped..] <==> r == STOP[dropped] || r in STOP[dropped + 1..]
  {
    assert STOP[dropped..] == [STOP[dropped]] + STOP[dropped + 1..];
  }

  lemma AllResourcesStop(r: Resource)
    ensures r in STOP[0..]
  {
    match r
    case Lease => assert STOP[0..][6] == r;
    case Database => assert STOP[0..][5] == r;
    case Transport => assert STOP[0..][4] == r;
    case Outbox => assert STOP[0..][2] == r;
    case Socket => assert STOP[0..][0] == r;
    case OwnerTcp => assert STOP[0..][1] == r;
    case Presence => assert STOP[0..][3] == r;
  }

  /** Letting go of the next resource in order keeps a process tidy; the lease goes last. */
  lemma DropTidy(d: Directory, pid: Pid, p: Process)
    requires Tidy(p) && p.phase.Stopping?
    ensures var r := STOP[p.phase.dropped];
            var next := Drop(d, pid, p, r).At(pid);
            && Tidy(next) && (Lease in next.held <==> r != Lease)
            && (next.tcp == p.tcp || (r == OwnerTcp && next.tcp == None))
  {
    OrderOfStop(p.phase.dropped);
    if STOP[p.phase.dropped] == Lease {
      assert STOP[p.phase.dropped + 1..] == [];
    }
  }

  lemma StopAgrees(d: Directory, step: Step, pid: Pid)
    requires Ok(d) && step.Stop?
    ensures Agrees(Next(d, step), pid)
  {
    assert Agrees(d, pid) && Agrees(d, step.pid);
    var p := d.At(step.pid);
    if p.phase.Up? {
      forall r | r in p.held ensures r in STOP[0..] {
        AllResourcesStop(r);
      }
    } else if p.phase.Stopping? {
      assert d.lock == Some(step.pid);
      if pid != step.pid {
        OthersHaveNothing(d, step.pid, pid);
      } else {
        DropTidy(d, pid, p);
      }
    }
  }

  lemma CrashAgrees(d: Directory, step: Step, pid: Pid)
    requires Ok(d) && !step.Start? && !step.Stop?
    ensures Agrees(Next(d, step), pid)
  {
    assert Agrees(d, pid) && Agrees(d, step.pid);
  }

  lemma StepKeeps(d: Directory, step: Step)
    requires Ok(d)
    ensures Ok(Next(d, step))
  {
    forall pid: Pid ensures Agrees(Next(d, step), pid) {
      match step
      case Start(_, _, _, _) => StartAgrees(d, step, pid);
      case Stop(_) => StopAgrees(d, step, pid);
      case _ => CrashAgrees(d, step, pid);
    }
  }

  lemma {:induction false} RunKeeps(d: Directory, steps: seq<Step>)
    requires Ok(d)
    ensures Ok(Run(d, steps))
    decreases |steps|
  {
    if steps != [] {
      StepKeeps(d, steps[0]);
      RunKeeps(Next(d, steps[0]), steps[1..]);
    }
  }

  // ----- main results -----

  /** Over every interleaving, a process holding any serving resource holds the lease, and no other holds any. */
  lemma ServingIsExclusive(info: Option<Pid>, record: Option<Record>, steps: seq<Step>, pid: Pid, other: Pid)
    ensures var d := Run(Unserved(info, record), steps);
            && (d.At(pid).held != {} ==> d.lock == Some(pid))
            && (d.At(pid).held != {} && d.At(other).held != {} ==> pid == other)
  {
    RunKeeps(Unserved(info, record), steps);
    var d := Run(Unserved(info, record), steps);
    assert Agrees(d, pid) && Agrees(d, other);
    if r :| r in d.At(pid).held {
      HeldImpliesLease(d.At(pid), r);
    }
    if r :| r in d.At(other).held {
      HeldImpliesLease(d.At(other), r);
    }
  }

  /** While a node's loopback port is bound, the record on disk is that node's own port and token. */
  lemma RecordIsTheServingNodes(info: Option<Pid>, record: Option<Record>, steps: seq<Step>, pid: Pid)
    ensures var d := Run(Unserved(info, record), steps);
            d.At(pid).tcp.Some? ==> d.record == d.At(pid).tcp && d.record.value.pid == pid
  {
    RunKeeps(Unserved(info, record), steps);
    assert Agrees(Run(Unserved(info, record), steps), pid);
  }

  /** A graceful shutdown takes away no record but its own, even when processes crashed and were succeeded before. */
  lemma ShutdownRemovesOnlyItsOwnRecord(info: Option<Pid>, record: Option<Record>, steps: seq<Step>, pid: Pid)
    ensures var d := Run(Unserved(info, record), steps);
            var after := Next(d, Stop(pid));
            after.record == d.record || (after.record == None && d.record == d.At(pid).tcp && d.record.value.pid == pid)
  {
    RunKeeps(Unserved(info, record), steps);
    assert Agrees(Run(Unserved(info, record), steps), pid);
  }

  /** Once a shutdown is through, the process holds nothing and the next start is let in at once. */
  lemma ReleasedDirectoryCanBeTaken(info: Option<Pid>, record: Option<Record>, steps: seq<Step>, pid: Pid, start: Step)
    requires start.Start?
    ensures var d := Run(Unserved(info, record), steps);
            d.lock.None? && d.probing == {} ==>
              d.At(start.pid).held == {}
              && (d.At(start.pid).phase == Off) && Next(d, start).lock == Some(start.pid)
  {
    RunKeeps(Unserved(info, record), steps);
    assert Agrees(Run(Unserved(info, record), steps), start.pid);
  }

  // ----- what comes and goes with what -----

  /** A graceful shutdown whose next step is the loopback port takes its record away, if the port was bound. */
  lemma ShutdownRemovesItsRecord(info: Option<Pid>, record: Option<Record>, steps: seq<Step>, pid: Pid)
    ensures var d := Run(Unserved(info, record), steps);
            d.At(pid).phase == Stopping(1) && d.At(pid).tcp.Some? ==>
              var after := Next(d, Stop(pid));
              after.record == None && after.At(pid).tcp == None && OwnerTcp !in after.At(pid).held
  {
    RunKeeps(Unserved(info, record), steps);
    assert Agrees(Run(Unserved(info, record), steps), pid);
  }

  /** What the process must hold at each point: everything taken and not yet let go, but for an optional resource
      that could not be bound. */
  predicate Stacked(p: Process) {
    match p.phase
    case Off => p.held == {}
    case Starting(taken) => taken <= |START| && (forall i :: 0 <= i < taken && !Optional(START[i]) ==> START[i] in p.held)
                            && (forall r :: r in p.held ==> r in START[..taken])
    case Up => forall r :: !Optional(r) ==> r in p.held
    case Stopping(dropped) => dropped < |STOP| && (forall i :: dropped <= i < |STOP| && !Optional(STOP[i]) ==> STOP[i] in p.held)
                              && (forall r :: r in p.held ==> r in STOP[dropped..])
  }

  lemma StackedStart(d: Directory, pid: Pid, p: Process, binds: bool, port: nat, token: string)
    requires Stacked(p) && p.phase.Starting? && p.phase.taken < |START|
    ensures Stacked(Take(d, pid, p, START[p.phase.taken], binds, port, token).At(pid))
  {
    var taken := p.phase.taken;
    assert START[..taken + 1] == START[..taken] + [START[taken]];
  }

  lemma StackedStop(d: Directory, pid: Pid, p: Process)
    requires Stacked(p) && p.phase.Stopping?
    ensures Stacked(Drop(d, pid, p, STOP[p.phase.dropped]).At(pid))
  {
    OrderOfStop(p.phase.dropped);
    if STOP[p.phase.dropped] == Lease {
      assert STOP[p.phase.dropped + 1..] == [];
    } else {
      forall i | p.phase.dropped < i < |STOP| ensures STOP[i] != STOP[p.phase.dropped] {
        assert STOP[i] == STOP[p.phase.dropped + 1..][i - p.phase.dropped - 1];
      }
    }
  }

  lemma AllAreStarted(r: Resource)
    ensures r in START
  {
    match r
    case Lease => assert START[0] == r;
    case Database => assert START[1] == r;
    case Transport => assert START[2] == r;
    case Outbox => assert START[3] == r;
    case Socket => assert START[4] == r;
    case OwnerTcp => assert START[5] == r;
    case Presence => assert START[6] == r;
  }

  lemma StepStacked(d: Directory, step: Step, pid: Pid)
    requires Stacked(d.At(pid))
    ensures Stacked(Next(d, step).At(pid))
  {
    var p := d.At(pid);
    match step {
      case Start(who, binds, port, token) =>
        if who == pid && p.phase.Starting? {
          if p.phase.taken < |START| {
            StackedStart(d, pid, p, binds, port, token);
          } else {
            forall r | !Optional(r) ensures r in p.held {
              AllAreStarted(r);
              var i :| 0 <= i < |START| && START[i] == r;
            }
          }
        } else if who == pid && p.phase.Off? {
          assert START[..1] == [Lease];
        }
      case Stop(who) =>
        if who == pid && p.phase.Up? {
          forall r ensures r in STOP[0..] {
            AllResourcesStop(r);
          }
        } else if who == pid && p.phase.Stopping? {
          StackedStop(d, pid, p);
        }
      case _ =>
    }
  }

  lemma {:induction false} RunStacked(d: Directory, steps: seq<Step>, pid: Pid)
    requires Stacked(d.At(pid))
    ensures Stacked(Run(d, steps).At(pid))
    decreases |steps|
  {
    if steps != [] {
      StepStacked(d, steps[0], pid);
      RunStacked(Next(d, steps[0]), steps[1..], pid);
    }
  }

  /** Over every run the resources nest: whoever holds the control socket, the loopback port, the outbox or presence
      has the transport, and whoever has the transport has the database; and a node that is up has them all but
      the socket and the port, which may fail to bind. */
  lemma ResourcesNest(info: Option<Pid>, record: Option<Record>, steps: seq<Step>, pid: Pid)
    ensures var p := Run(Unserved(info, record), steps).At(pid);
            && (p.held * {Socket, OwnerTcp, Outbox, Presence} != {} ==> Transport in p.held)
            && (Transport in p.held ==> Database in p.held)
            && (Database in p.held ==> Lease in p.held)
            && (Socket in p.held && p.phase.Stopping? ==> p.phase.dropped == 0 && Outbox in p.held && Presence in p.held)
            && (p.phase.Up? ==> {Lease, Database, Transport, Outbox, Presence} <= p.held)
  {
    RunStacked(Unserved(info, record), steps, pid);
    var p := Run(Unserved(info, record), steps).At(pid);
    NestedBy(p);
  }

  lemma NestedBy(p: Process)
    requires Stacked(p)
    ensures p.held * {Socket, OwnerTcp, Outbox, Presence} != {} ==> Transport in p.held
    ensures Transport in p.held ==> Database in p.held
    ensures Database in p.held ==> Lease in p.held
    ensures Socket in p.held && p.phase.Stopping? ==> p.phase.dropped == 0 && Outbox in p.held && Presence in p.held
    ensures p.phase.Up? ==> {Lease, Database, Transport, Outbox, Presence} <= p.held
  {
    if p.phase.Starting? {
      StartedBefore(p.phase.taken);
    } else if p.phase.Stopping? {
      StoppedAfter(p.phase.dropped);
    }
  }

  lemma StartedBefore(taken: nat)
    requires taken <= |START|
    ensures Lease in START[..taken] <==> taken > 0
    ensures Database in START[..taken] <==> taken > 1
    ensures Transport in START[..taken] <==> taken > 2
    ensures Outbox in START[..taken] <==> taken > 3
    ensures Socket in START[..taken] <==> taken > 4
    ensures OwnerTcp in START[..taken] <==> taken > 5
    ensures Presence in START[..taken] <==> taken > 6
  {
    assert forall i :: 0 <= i < taken ==> START[i] == START[..taken][i];
    assert START[0] == Lease && START[1] == Database && START[2] == Transport && START[3] == Outbox;
    assert START[4] == Socket && START[5] == OwnerTcp && START[6] == Presence;
  }

  lemma StoppedAfter(dropped: nat)
    requires dropped < |STOP|
    ensures Socket in STOP[dropped..] <==> dropped == 0
    ensures OwnerTcp in STOP[dropped..] <==> dropped <= 1
    ensures Outbox in STOP[dropped..] <==> dropped <= 2
    ensures Presence in STOP[dropped..] <==> dropped <= 3
    ensures Transport in STOP[dropped..] <==> dropped <= 4
    ensures Database in STOP[dropped..] <==> dropped <= 5
    ensures Lease in STOP[dropped..]
  {
    assert forall i :: dropped <= i < |STOP| ==> STOP[i] == STOP[dropped..][i - dropped];
    assert STOP[0] == Socket && STOP[1] == OwnerTcp && STOP[2] == Outbox && STOP[3] == Presence;
    assert STOP[4] == Transport && STOP[5] == Database && STOP[6] == Lease;
  }

  /** The description beside the lock names whoever holds the lease. */
  lemma {:induction false} RunKeepsInfo(d: Directory, steps: seq<Step>)
    requires Ok(d) && (d.lock.Some? ==> d.info == d.lock)
    ensures Ok(Run(d, steps)) && (Run(d, steps).lock.Some? ==> Run(d, steps).info == Run(d, steps).lock)
    decreases |steps|
  {
    if steps != [] {
      StepKeeps(d, steps[0]);
      InfoFollowsLock(d, steps[0]);
      RunKeepsInfo(Next(d, steps[0]), steps[1..]);
    }
  }

  lemma InfoFollowsLock(d: Directory, step: Step)
    requires Ok(d) && (d.lock.Some? ==> d.info == d.lock)
    ensures Next(d, step).lock.Some? ==> Next(d, step).info == Next(d, step).lock
  {
  }

  lemma InfoNamesTheHolder(info: Option<Pid>, record: Option<Record>, steps: seq<Step>)
    ensures var d := Run(Unserved(info, record), steps);
            d.lock.Some? ==> d.info == d.lock
  {
    RunKeepsInfo(Unserved(info, record), steps);
  }

  /** Binding the loopback port puts this process, its port and its token on record; a port that does not bind
      leaves whatever record there is. */
  lemma BindWritesItsRecord(d: Directory, pid: Pid, binds: bool, port: nat, token: string)
    requires d.At(pid).phase == Starting(5)
    ensures var after := Next(d, Start(pid, binds, port, token));
            && (binds ==> after.record == Some(Record(port, token, pid)) && after.At(pid).tcp == after.record
                          && OwnerTcp in after.At(pid).held)
            && (!binds ==> after.record == d.record && after.At(pid).tcp == d.At(pid).tcp)
  {
    assert START[5] == OwnerTcp;
  }

  // ----- handing over -----

  function Repeat(step: Step, n: nat): (steps: seq<Step>)
    ensures |steps| == n
  {
    if n == 0 then [] else [step] + Repeat(step, n - 1)
  }

  predicate HoldsFirst(p: Process, taken: nat) {
    taken <= |START| && forall i :: 0 <= i < taken ==> START[i] in p.held
  }

  lemma StartStep(d: Directory, pid: Pid, binds: bool, port: nat, token: string)
    requires d.At(pid).phase.Starting? && d.At(pid).phase.taken <= |START|
    ensures var p, taken := d.At(pid), d.At(pid).phase.taken;
            var after := Next(d, Start(pid, binds, port, token));
            && after.At(pid).phase == (if taken < |START| then Starting(taken + 1) else Up) && after.lock == d.lock
            && (binds && HoldsFirst(p, taken) ==> HoldsFirst(after.At(pid), if taken < |START| then taken + 1 else taken))
  {
  }

  lemma {:induction false} StartClimbs(d: Directory, pid: Pid, binds: bool, port: nat, token: string)
    requires d.At(pid).phase.Starting? && d.At(pid).phase.taken <= |START|
    ensures var after := Run(d, Repeat(Start(pid, binds, port, token), |START| + 1 - d.At(pid).phase.taken));
            && after.At(pid).phase == Up && after.lock == d.lock
            && (binds && HoldsFirst(d.At(pid), d.At(pid).phase.taken) ==> HoldsFirst(after.At(pid), |START|))
    decreases |START| - d.At(pid).phase.taken
  {
    var step, taken := Start(pid, binds, port, token), d.At(pid).phase.taken;
    var next, steps := Next(d, step), Repeat(step, |START| + 1 - taken);
    StartStep(d, pid, binds, port, token);
    assert steps[0] == step && steps[1..] == Repeat(step, |START| - taken);
    assert Run(d, steps) == Run(next, steps[1..]);
    if taken < |START| {
      StartClimbs(next, pid, binds, port, token);
    } else {
      assert Run(next, Repeat(step, 0)) == next;
    }
  }

  lemma StopStep(d: Directory, pid: Pid)
    requires d.At(pid).phase.Stopping? && d.At(pid).phase.dropped < |STOP|
    ensures var dropped, after := d.At(pid).phase.dropped, Next(d, Stop(pid));
            if dropped + 1 < |STOP| then after.At(pid).phase == Stopping(dropped + 1)
            else after.At(pid).phase == Off && after.lock == None
  {
    OrderOfStop(d.At(pid).phase.dropped);
  }

  lemma {:induction false} StopDescends(d: Directory, pid: Pid)
    requires d.At(pid).phase.Stopping? && d.At(pid).phase.dropped < |STOP|
    ensures var after := Run(d, Repeat(Stop(pid), |STOP| - d.At(pid).phase.dropped));
            after.At(pid).phase == Off && after.lock == None
    decreases |STOP| - d.At(pid).phase.dropped
  {
    var dropped := d.At(pid).phase.dropped;
    var next, steps := Next(d, Stop(pid)), Repeat(Stop(pid), |STOP| - dropped);
    StopStep(d, pid);
    assert steps[0] == Stop(pid) && steps[1..] == Repeat(Stop(pid), |STOP| - dropped - 1);
    assert Run(d, steps) == Run(next, steps[1..]);
    if dropped + 1 < |STOP| {
      StopDescends(next, pid);
    } else {
      assert Run(next, Repeat(Stop(pid), 0)) == next;
    }
  }

  /** Over every run, where nobody serves or probes, a process that is left to start is up eight steps later: it holds
      the lease and, when its socket and port bind, everything. */
  lemma StartServes(info: Option<Pid>, record: Option<Record>, steps: seq<Step>, pid: Pid, binds: bool, port: nat, token: string)
    ensures var d := Run(Unserved(info, record), steps);
            var after := Run(d, Repeat(Start(pid, binds, port, token), 8));
            d.lock == None && d.probing == {} ==>
              && after.At(pid).phase == Up && after.lock == Some(pid)
              && {Lease, Database, Transport, Outbox, Presence} <= after.At(pid).held
              && (binds ==> {Socket, OwnerTcp} <= after.At(pid).held)
  {
    var d, step := Run(Unserved(info, record), steps), Start(pid, binds, port, token);
    if d.lock == None && d.probing == {} {
      ReleasedDirectoryCanBeTaken(info, record, steps, pid, step);
      var next := Next(d, step);
      assert Repeat(step, 8)[1..] == Repeat(step, 7);
      assert HoldsFirst(next.At(pid), 1);
      StartClimbs(next, pid, binds, port, token);
      var p := Run(d, Repeat(step, 8)).At(pid);
      RunStacked(Unserved(info, record), steps, pid);
      RunStacked(d, Repeat(step, 8), pid);
      NestedBy(p);
      assert binds ==> START[4] in p.held && START[5] in p.held;
    }
  }

  /** And over every run a process that is up and left to shut down is gone eight steps later: it holds nothing, and
      the lease is free for the next one. */
  lemma ShutdownReleases(info: Option<Pid>, record: Option<Record>, steps: seq<Step>, pid: Pid)
    ensures var d := Run(Unserved(info, record), steps);
            var after := Run(d, Repeat(Stop(pid), 8));
            d.At(pid).phase == Up ==>
              after.lock == None && after.At(pid) == Process(Off, {}, None)
  {
    var d := Run(Unserved(info, record), steps);
    if d.At(pid).phase == Up {
      RunKeeps(Unserved(info, record), steps);
      assert Agrees(d, pid);
      var next := Next(d, Stop(pid));
      assert Repeat(Stop(pid), 8)[1..] == Repeat(Stop(pid), 7);
      StopDescends(next, pid);
      RunKeeps(d, Repeat(Stop(pid), 8));
      assert Agrees(Run(d, Repeat(Stop(pid), 8)), pid);
    }
  }

  /** A probe is let in only while nobody serves; it keeps a start out until it ends or its process is gone. */
  lemma ProbesPass(d: Directory, pid: Pid, start: Step)
    requires start.Start? && d.At(start.pid).phase.Off?
    ensures Next(d, Probe(pid)) == if d.lock.None? then d.(probing := d.probing + {pid}) else d
    ensures d.probing != {} ==> Next(d, start) == d
    ensures Next(d, EndProbe(pid)).probing == Next(d, Crash(pid)).probing == d.probing - {pid}
  {
  }
}
