/** What the PCB manager keeps true across any sequence of its operations:
    its well-formedness, counters that never go down, and, for the corrected
    idle reclamation, an `active_connections` that equals the number of
    `ESTABLISHED` records. */
module PcbInvariants {
  import opened Common
  import opened Utf8
  import opened Grouping
  import opened PcbState
  import opened PcbProtocol
  import opened PcbManager

  // ---------------------------------------------------------------------------
  // Well-formedness
  // ---------------------------------------------------------------------------

  /** The id a creation picks is new to a valid manager, so the new record is
      appended at the end of the order. */
  lemma CreateFresh(m: Manager, local: Address, remote: Address, tag: nat, now: int, initialSequence: int)
    requires Valid(m)
    ensures var (id, r) := CreateConnection(m, local, remote, tag, now, initialSequence);
      id !in m.conns && r.order == m.order + [id]
  {
  }

  lemma CreateKeepsValid(m: Manager, local: Address, remote: Address, tag: nat, now: int, initialSequence: int)
    requires Valid(m)
    ensures Valid(CreateConnection(m, local, remote, tag, now, initialSequence).1)
  {
    var (id, r) := CreateConnection(m, local, remote, tag, now, initialSequence);
    CreateFresh(m, local, remote, tag, now, initialSequence);
    AppendKeepsValid(m, r, id);
  }

  /** Appending a well-formed record under the next serial number keeps the
      manager well-formed. */
  lemma AppendKeepsValid(m: Manager, r: Manager, id: string)
    requires Valid(m) && id !in m.conns && id in r.conns && RecordOk(id, r.conns[id])
    requires Serial(id) == Some(m.counter + 1)
    requires r.order == m.order + [id] && r.counter == m.counter + 1
    requires r.stats.totalConnections == m.stats.totalConnections + 1
    requires r.conns == m.conns[id := r.conns[id]]
    ensures Valid(r)
  {
    forall i | 0 <= i < |r.order| ensures Serial(r.order[i]) == Some(i + 1) {
      if i < |m.order| {
        assert r.order[i] == m.order[i];
      }
    }
  }

  /** Replacing one well-formed record by another well-formed one under the
      same id keeps the manager well-formed. */
  lemma UpdateKeepsValid(m: Manager, r: Manager, id: string)
    requires Valid(m) && id in m.conns && id in r.conns && RecordOk(id, r.conns[id])
    requires r.order == m.order && r.counter == m.counter
    requires r.stats.totalConnections == m.stats.totalConnections
    requires r.conns == m.conns[id := r.conns[id]]
    ensures Valid(r)
  {
  }

  lemma EstablishKeepsValid(m: Manager, id: string, now: int)
    requires Valid(m)
    ensures Valid(EstablishConnection(m, id, now).1)
  {
    var (ok, r) := EstablishConnection(m, id, now);
    if ok {
      UpdateKeepsValid(m, r, id);
    }
  }

  lemma CloseKeepsValid(m: Manager, id: string, now: int)
    requires Valid(m)
    ensures Valid(CloseConnection(m, id, now).1)
  {
    var (ok, r) := CloseConnection(m, id, now);
    if ok {
      UpdateKeepsValid(m, r, id);
    }
  }

  lemma SendKeepsValid(m: Manager, id: string, message: string, now: int)
    requires Valid(m)
    ensures Valid(SendMessage(m, id, message, now).1)
  {
    if id in m.conns {
      UpdateKeepsValid(m, SendMessage(m, id, message, now).1, id);
    }
  }

  lemma ReceiveKeepsValid(m: Manager, id: string, message: string, now: int)
    requires Valid(m)
    ensures Valid(SimulateReceivedMessage(m, id, message, now))
  {
    if id in m.conns {
      var pr := m.conns[id];
      var data := Encode(message + "\n");
      DataReceivedKeeps(pr, data, now);
      assert RecordOk(id, DataReceived(pr, data, now)) by {
        assert RecordOk(id, pr);
      }
      UpdateKeepsValid(m, SimulateReceivedMessage(m, id, message, now), id);
    }
  }

  /** Expiring one record keeps the manager well-formed under either policy:
      the only states a record of a valid manager can be in are `CLOSED` and
      `ESTABLISHED`, and the table refuses `ESTABLISHED -> CLOSED`. */
  lemma ExpireOneKeepsValid(m: Manager, id: string, now: int, policy: ExpiryPolicy)
    requires Valid(m) && id in m.conns
    ensures Valid(ExpireOne(m, id, now, policy))
  {
    if Pending(m, id) {
      var pr := m.conns[id];
      assert RecordOk(id, Expire(pr, now, policy)) by {
        assert RecordOk(id, pr);
        if policy == ThroughTable {
          ExpireKeepsTableState(pr, now);
        }
      }
      UpdateKeepsValid(m, ExpireOne(m, id, now, policy), id);
    }
  }

  lemma {:induction false} ExpireAllKeepsValid(m: Manager, ids: seq<string>, now: int, policy: ExpiryPolicy)
    requires Valid(m)
    requires forall i :: 0 <= i < |ids| ==> ids[i] in m.conns
    ensures Valid(ExpireAll(m, ids, now, policy))
    decreases |ids|
  {
    if |ids| > 0 {
      var m1 := ExpireOne(m, ids[0], now, policy);
      ExpireOneKeepsValid(m, ids[0], now, policy);
      assert forall i :: 0 <= i < |ids[1..]| ==> ids[1..][i] in m1.conns by {
        forall i | 0 <= i < |ids[1..]| ensures ids[1..][i] in m1.conns {
          assert ids[1..][i] == ids[i + 1];
        }
      }
      ExpireAllKeepsValid(m1, ids[1..], now, policy);
    }
  }

  lemma ApplyKeepsValid(m: Manager, e: Event)
    requires Valid(m)
    ensures Valid(Apply(m, e))
  {
    match e.op
    case Create(local, remote, tag, initialSequence) => CreateKeepsValid(m, local, remote, tag, e.at, initialSequence);
    case Establish(id) => EstablishKeepsValid(m, id, e.at);
    case Send(id, message) => SendKeepsValid(m, id, message, e.at);
    case Receive(id, message) => ReceiveKeepsValid(m, id, message, e.at);
    case Close(id) => CloseKeepsValid(m, id, e.at);
    case Cleanup(timeout) => ExpireAllKeepsValid(m, IdleIds(m, timeout, e.at), e.at, ThroughTable);
    case Reclaim(timeout) => ExpireAllKeepsValid(m, IdleIds(m, timeout, e.at), e.at, Forced);
  }

  /** Every reachable manager is well-formed. */
  lemma {:induction false} RunKeepsValid(m: Manager, events: seq<Event>)
    requires Valid(m)
    ensures Valid(Run(m, events))
    decreases |events|
  {
    if |events| > 0 {
      ApplyKeepsValid(m, events[0]);
      RunKeepsValid(Apply(m, events[0]), events[1..]);
    }
  }

  lemma NewManagerValid()
    ensures Valid(NewManager())
  {
  }

  // ---------------------------------------------------------------------------
  // Counters never go down
  // ---------------------------------------------------------------------------

  predicate PcbGrows(p: Pcb, q: Pcb) {
    && q.bytesSent >= p.bytesSent && q.bytesReceived >= p.bytesReceived
    && q.packetsSent >= p.packetsSent && q.packetsReceived >= p.packetsReceived
  }

  /** Every record of `m` is still in `r` with traffic counters at least as
      large, and the cumulative statistics are at least as large. */
  predicate Grows(m: Manager, r: Manager) {
    && (forall id :: id in m.conns ==> id in r.conns && PcbGrows(m.conns[id].pcb, r.conns[id].pcb))
    && r.stats.totalConnections >= m.stats.totalConnections
    && r.stats.closedConnections >= m.stats.closedConnections
    && r.stats.timedOutConnections >= m.stats.timedOutConnections
    && r.stats.stateTransitions >= m.stats.stateTransitions
  }

  lemma GrowsTransitive(a: Manager, b: Manager, c: Manager)
    requires Grows(a, b) && Grows(b, c)
    ensures Grows(a, c)
  {
  }

  lemma ExpireAllGrows(m: Manager, timeout: int, now: int, policy: ExpiryPolicy)
    requires Valid(m)
    ensures Grows(m, ExpireAll(m, IdleIds(m, timeout, now), now, policy))
  {
    var r := ExpireAll(m, IdleIds(m, timeout, now), now, policy);
    forall id | id in m.conns
      ensures id in r.conns && PcbGrows(m.conns[id].pcb, r.conns[id].pcb)
    {
      ExpireIdleRecord(m, timeout, now, policy, id);
    }
    ExpireIdleCounts(m, timeout, now, policy);
  }

  lemma CreateGrows(m: Manager, local: Address, remote: Address, tag: nat, now: int, initialSequence: int)
    requires Valid(m)
    ensures Grows(m, CreateConnection(m, local, remote, tag, now, initialSequence).1)
  {
    CreateFresh(m, local, remote, tag, now, initialSequence);
  }

  lemma ReceiveGrows(m: Manager, id: string, message: string, now: int)
    ensures Grows(m, SimulateReceivedMessage(m, id, message, now))
  {
    if id in m.conns {
      DataReceivedKeeps(m.conns[id], Encode(message + "\n"), now);
    }
  }

  lemma EstablishGrows(m: Manager, id: string, now: int)
    ensures Grows(m, EstablishConnection(m, id, now).1)
  {
  }

  lemma SendGrows(m: Manager, id: string, message: string, now: int)
    ensures Grows(m, SendMessage(m, id, message, now).1)
  {
  }

  lemma CloseGrows(m: Manager, id: string, now: int)
    ensures Grows(m, CloseConnection(m, id, now).1)
  {
  }

  lemma ApplyGrows(m: Manager, e: Event)
    requires Valid(m)
    ensures Grows(m, Apply(m, e))
  {
    match e.op
    case Create(local, remote, tag, initialSequence) => CreateGrows(m, local, remote, tag, e.at, initialSequence);
    case Establish(id) => EstablishGrows(m, id, e.at);
    case Send(id, message) => SendGrows(m, id, message, e.at);
    case Receive(id, message) => ReceiveGrows(m, id, message, e.at);
    case Close(id) => CloseGrows(m, id, e.at);
    case Cleanup(timeout) => ExpireAllGrows(m, timeout, e.at, ThroughTable);
    case Reclaim(timeout) => ExpireAllGrows(m, timeout, e.at, Forced);
  }

  /** Along any run from a valid manager, no record disappears and neither
      the per-record traffic counters nor the cumulative statistics decrease. */
  lemma {:induction false} RunGrows(m: Manager, events: seq<Event>)
    requires Valid(m)
    ensures Grows(m, Run(m, events))
    decreases |events|
  {
    if |events| > 0 {
      var m1 := Apply(m, events[0]);
      ApplyGrows(m, events[0]);
      ApplyKeepsValid(m, events[0]);
      RunGrows(m1, events[1..]);
      GrowsTransitive(m, m1, Run(m1, events[1..]));
    }
  }

  // ---------------------------------------------------------------------------
  // The active count
  // ---------------------------------------------------------------------------

  function EstablishedIn(conns: map<string, Protocol>): string -> bool {
    id => id in conns && conns[id].pcb.state == Established
  }

  /** The number of `ESTABLISHED` records. */
  function EstablishedCount(m: Manager): nat {
    CountIf(m.order, EstablishedIn(m.conns))
  }

  /** `active_connections` counts the `ESTABLISHED` records. */
  predicate ActiveAccurate(m: Manager) {
    m.stats.activeConnections == EstablishedCount(m)
  }

  lemma CreateKeepsActive(m: Manager, local: Address, remote: Address, tag: nat, now: int, initialSequence: int)
    requires Valid(m) && ActiveAccurate(m)
    ensures ActiveAccurate(CreateConnection(m, local, remote, tag, now, initialSequence).1)
  {
    var (id, r) := CreateConnection(m, local, remote, tag, now, initialSequence);
    CreateFresh(m, local, remote, tag, now, initialSequence);
    assert id !in m.order;
    AppendCount(m, r, id);
  }

  /** Appending a record that is not `ESTABLISHED` under a new id leaves the
      count as it was. */
  lemma AppendCount(m: Manager, r: Manager, id: string)
    requires id !in m.order && id in r.conns && r.conns[id].pcb.state != Established
    requires r.order == m.order + [id] && r.conns == m.conns[id := r.conns[id]]
    ensures EstablishedCount(r) == EstablishedCount(m)
  {
    var p, q := EstablishedIn(m.conns), EstablishedIn(r.conns);
    forall i | 0 <= i < |m.order| ensures p(m.order[i]) == q(m.order[i]) {
      assert m.order[i] != id;
    }
    CountIfCongruent(m.order, p, q);
    CountIfAppend(m.order, [id], q);
    assert CountIf([id], q) == 0 by {
      assert [id][1..] == [];
    }
  }

  /** A change of one record moves the count by that record's contribution. */
  lemma PointUpdateCount(m: Manager, r: Manager, id: string)
    requires Distinct(m.order) && id in m.order && id in m.conns
    requires r.order == m.order && id in r.conns && r.conns == m.conns[id := r.conns[id]]
    ensures EstablishedCount(r) == EstablishedCount(m)
      - (if m.conns[id].pcb.state == Established then 1 else 0)
      + (if r.conns[id].pcb.state == Established then 1 else 0)
  {
    CountIfPointUpdate(m.order, EstablishedIn(m.conns), EstablishedIn(r.conns), id);
  }

  lemma EstablishKeepsActive(m: Manager, id: string, now: int)
    requires Valid(m) && ActiveAccurate(m)
    ensures ActiveAccurate(EstablishConnection(m, id, now).1)
  {
    var (ok, r) := EstablishConnection(m, id, now);
    if ok {
      ValidDistinct(m);
      PointUpdateCount(m, r, id);
    }
  }

  lemma CloseKeepsActive(m: Manager, id: string, now: int)
    requires Valid(m) && ActiveAccurate(m)
    ensures ActiveAccurate(CloseConnection(m, id, now).1)
  {
    var (ok, r) := CloseConnection(m, id, now);
    if ok {
      ValidDistinct(m);
      PointUpdateCount(m, r, id);
    }
  }

  lemma SendKeepsActive(m: Manager, id: string, message: string, now: int)
    requires Valid(m) && ActiveAccurate(m)
    ensures ActiveAccurate(SendMessage(m, id, message, now).1)
  {
    var r := SendMessage(m, id, message, now).1;
    if id in m.conns {
      ValidDistinct(m);
      PointUpdateCount(m, r, id);
    }
  }

  lemma ReceiveKeepsActive(m: Manager, id: string, message: string, now: int)
    requires Valid(m) && ActiveAccurate(m)
    ensures ActiveAccurate(SimulateReceivedMessage(m, id, message, now))
  {
    var r := SimulateReceivedMessage(m, id, message, now);
    if id in m.conns {
      DataReceivedKeeps(m.conns[id], Encode(message + "\n"), now);
      ValidDistinct(m);
      PointUpdateCount(m, r, id);
    }
  }

  /** Forcing one idle record to `CLOSED` lowers the count exactly when the
      active counter is lowered. */
  lemma ExpireOneForcedKeepsActive(m: Manager, id: string, now: int)
    requires Valid(m) && ActiveAccurate(m) && id in m.conns
    ensures ActiveAccurate(ExpireOne(m, id, now, Forced))
  {
    var r := ExpireOne(m, id, now, Forced);
    if Pending(m, id) {
      ValidDistinct(m);
      PointUpdateCount(m, r, id);
    }
  }

  lemma {:induction false} ExpireAllForcedKeepsActive(m: Manager, ids: seq<string>, now: int)
    requires Valid(m) && ActiveAccurate(m)
    requires forall i :: 0 <= i < |ids| ==> ids[i] in m.conns
    ensures ActiveAccurate(ExpireAll(m, ids, now, Forced))
    decreases |ids|
  {
    if |ids| > 0 {
      var m1 := ExpireOne(m, ids[0], now, Forced);
      ExpireOneKeepsValid(m, ids[0], now, Forced);
      ExpireOneForcedKeepsActive(m, ids[0], now);
      assert forall i :: 0 <= i < |ids[1..]| ==> ids[1..][i] in m1.conns by {
        forall i | 0 <= i < |ids[1..]| ensures ids[1..][i] in m1.conns {
          assert ids[1..][i] == ids[i + 1];
        }
      }
      ExpireAllForcedKeepsActive(m1, ids[1..], now);
    }
  }

  /** Every operation but the as-written cleanup keeps the active count exact. */
  lemma ApplyKeepsActive(m: Manager, e: Event)
    requires Valid(m) && ActiveAccurate(m)
    requires !e.op.Cleanup?
    ensures ActiveAccurate(Apply(m, e))
  {
    match e.op
    case Create(local, remote, tag, initialSequence) => CreateKeepsActive(m, local, remote, tag, e.at, initialSequence);
    case Establish(id) => EstablishKeepsActive(m, id, e.at);
    case Send(id, message) => SendKeepsActive(m, id, message, e.at);
    case Receive(id, message) => ReceiveKeepsActive(m, id, message, e.at);
    case Close(id) => CloseKeepsActive(m, id, e.at);
    case Reclaim(timeout) => ExpireAllForcedKeepsActive(m, IdleIds(m, timeout, e.at), e.at);
  }

  /** With idle reclamation in place of the as-written cleanup,
      `active_connections` always equals the number of `ESTABLISHED` records,
      and so is never negative. */
  lemma {:induction false} RunKeepsActive(m: Manager, events: seq<Event>)
    requires Valid(m) && ActiveAccurate(m)
    requires forall i :: 0 <= i < |events| ==> !events[i].op.Cleanup?
    ensures ActiveAccurate(Run(m, events))
    ensures Run(m, events).stats.activeConnections >= 0
    decreases |events|
  {
    if |events| > 0 {
      ApplyKeepsValid(m, events[0]);
      ApplyKeepsActive(m, events[0]);
      assert forall i :: 0 <= i < |events[1..]| ==> !events[1..][i].op.Cleanup? by {
        forall i | 0 <= i < |events[1..]| ensures !events[1..][i].op.Cleanup? {
          assert events[1..][i] == events[i + 1];
        }
      }
      RunKeepsActive(Apply(m, events[0]), events[1..]);
    }
  }

  // ---------------------------------------------------------------------------
  // Idle cleanup: as written and corrected
  // ---------------------------------------------------------------------------

  /** The as-written cleanup cannot close an idle `ESTABLISHED` record: the
      table refuses `ESTABLISHED -> CLOSED`, so the record stays
      `ESTABLISHED`, only loses its connection, keeps its old activity time
      (and so stays idle), while the active counter is lowered for it. */
  lemma CleanupLeavesEstablished(m: Manager, timeout: int, now: int, id: string)
    requires Valid(m)
    requires id in m.conns && m.conns[id].pcb.state == Established && !IsActive(m.conns[id].pcb, timeout, now)
    ensures var r := CleanupInactive(m, timeout, now);
      && r.conns[id].pcb.state == Established && !r.conns[id].isConnected
      && r.conns[id].pcb.lastActivity == m.conns[id].pcb.lastActivity
      && r.stats.activeConnections <= m.stats.activeConnections - 1
  {
    var ids := IdleIds(m, timeout, now);
    var pr := m.conns[id];
    assert id in ids;
    assert CleanupInactive(m, timeout, now).conns[id] == pr.(isConnected := false) by {
      ExpireIdleRecord(m, timeout, now, ThroughTable, id);
      ExpireRefused(pr, now);
    }
    assert CleanupInactive(m, timeout, now).stats.activeConnections <= m.stats.activeConnections - 1 by {
      ExpireIdleCounts(m, timeout, now, ThroughTable);
      ExpireRefused(pr, now);
      assert Drops(m, id, now, ThroughTable);
      CountIfPositive(ids, id => Drops(m, id, now, ThroughTable), id);
    }
  }

  /** An `ESTABLISHED` record that times out through the table is only
      disconnected. */
  lemma ExpireRefused(pr: Protocol, now: int)
    requires pr.pcb.state == Established
    ensures Expire(pr, now, ThroughTable) == pr.(isConnected := false)
  {
    assert !CanTransition(Established, Closed);
  }

  /** The as-written cleanup changes no state of a valid manager's records,
      so it leaves the number of `ESTABLISHED` records as it was. */
  lemma CleanupKeepsStates(m: Manager, timeout: int, now: int)
    requires Valid(m)
    ensures var r := CleanupInactive(m, timeout, now);
      forall id :: id in m.conns ==> r.conns[id].pcb.state == m.conns[id].pcb.state
  {
    forall id | id in m.conns
      ensures CleanupInactive(m, timeout, now).conns[id].pcb.state == m.conns[id].pcb.state
    {
      ExpireIdleRecord(m, timeout, now, ThroughTable, id);
      assert RecordOk(id, m.conns[id]);
      ExpireKeepsTableState(m.conns[id], now);
    }
  }

  /** The table lets neither `CLOSED` nor `ESTABLISHED` move to `CLOSED`. */
  lemma ExpireKeepsTableState(pr: Protocol, now: int)
    requires pr.pcb.state == Closed || pr.pcb.state == Established
    ensures Expire(pr, now, ThroughTable).pcb.state == pr.pcb.state
  {
    assert !CanTransition(pr.pcb.state, Closed);
  }

  lemma CleanupKeepsCount(m: Manager, timeout: int, now: int)
    requires Valid(m)
    ensures EstablishedCount(CleanupInactive(m, timeout, now)) == EstablishedCount(m)
  {
    var r := CleanupInactive(m, timeout, now);
    CleanupKeepsStates(m, timeout, now);
    forall i | 0 <= i < |m.order|
      ensures EstablishedIn(m.conns)(m.order[i]) == EstablishedIn(r.conns)(m.order[i])
    {
      assert m.order[i] in m.conns;
    }
    CountIfCongruent(m.order, EstablishedIn(m.conns), EstablishedIn(r.conns));
  }

  /** Hence, from any exact manager holding an idle `ESTABLISHED` record, the
      as-written cleanup leaves `active_connections` below the number of
      `ESTABLISHED` records. */
  lemma CleanupBreaksActive(m: Manager, timeout: int, now: int, id: string)
    requires Valid(m) && ActiveAccurate(m)
    requires id in m.conns && m.conns[id].pcb.state == Established && !IsActive(m.conns[id].pcb, timeout, now)
    ensures var r := CleanupInactive(m, timeout, now);
      r.stats.activeConnections < EstablishedCount(r)
  {
    CleanupKeepsCount(m, timeout, now);
    CleanupLeavesEstablished(m, timeout, now, id);
  }

  /** A pass over a manager whose only record is idle handles exactly that record. */
  lemma SingleIdlePass(m: Manager, timeout: int, now: int, id: string, policy: ExpiryPolicy)
    requires m.order == [id] && id in m.conns && !IsActive(m.conns[id].pcb, timeout, now)
    ensures IdleIds(m, timeout, now) == [id]
    ensures ExpireAll(m, IdleIds(m, timeout, now), now, policy) == ExpireOne(m, id, now, policy)
  {
    var p := (k: string) => k in m.conns && !IsActive(m.conns[k].pcb, timeout, now);
    assert m.order[1..] == [];
    assert Filter(m.order, p) == [id] + Filter(m.order[1..], p);
    assert [id][1..] == [];
  }

  /** A fresh manager after one creation and a handshake at time 0. */
  lemma OneEstablished(a: Address) returns (id: string, m: Manager)
    ensures m == EstablishConnection(CreateConnection(NewManager(), a, a, 1000, 0, 1000).1,
                                     CreateConnection(NewManager(), a, a, 1000, 0, 1000).0, 0).1
    ensures id == CreateConnection(NewManager(), a, a, 1000, 0, 1000).0
    ensures m.order == [id] && id in m.conns && Valid(m)
    ensures m.conns[id].pcb.state == Established && m.conns[id].pcb.lastActivity == 0
    ensures m.stats == Stats(1, 1, 0, 0, 3)
  {
    var m1: Manager;
    id, m1 := CreateConnection(NewManager(), a, a, 1000, 0, 1000).0, CreateConnection(NewManager(), a, a, 1000, 0, 1000).1;
    NewManagerValid();
    CreateFresh(NewManager(), a, a, 1000, 0, 1000);
    CreateKeepsValid(NewManager(), a, a, 1000, 0, 1000);
    m := EstablishConnection(m1, id, 0).1;
    EstablishKeepsValid(m1, id, 0);
  }

  /** One connection established at time 0 and idle for 100 time units
      against a timeout of 60: two as-written cleanups drive
      `active_connections` to -1 while the record is still `ESTABLISHED`; a
      close after one cleanup does the same. */
  lemma CleanupDriftScenario(a: Address)
    ensures var m1 := CreateConnection(NewManager(), a, a, 1000, 0, 1000);
      var id := m1.0;
      var m2 := EstablishConnection(m1.1, id, 0).1;
      var m3 := CleanupInactive(m2, 60, 100);
      && m2.stats.activeConnections == 1
      && m3.stats.activeConnections == 0 && m3.conns[id].pcb.state == Established
      && CleanupInactive(m3, 60, 100).stats.activeConnections == -1
      && CleanupInactive(m3, 60, 100).stats.timedOutConnections == 2
      && CloseConnection(m3, id, 100).0
      && CloseConnection(m3, id, 100).1.stats.activeConnections == -1
  {
    var id, m2 := OneEstablished(a);
    IdleEstablishedCleanup(m2, id, 60, 100);
    var m3 := CleanupInactive(m2, 60, 100);
    IdleEstablishedCleanup(m3, id, 60, 100);
  }

  /** The as-written cleanup of a manager whose only record is idle and
      `ESTABLISHED`. */
  lemma IdleEstablishedCleanup(m: Manager, id: string, timeout: int, now: int)
    requires m.order == [id] && id in m.conns && m.conns[id].pcb.state == Established
    requires !IsActive(m.conns[id].pcb, timeout, now)
    ensures var r := CleanupInactive(m, timeout, now);
      && r.order == [id] && id in r.conns && r.conns[id].pcb == m.conns[id].pcb
      && r.stats == m.stats.(activeConnections := m.stats.activeConnections - 1,
                             timedOutConnections := m.stats.timedOutConnections + 1)
  {
    SingleIdlePass(m, timeout, now, id, ThroughTable);
  }

  /** With no record left to expire, a pass changes nothing. */
  lemma {:induction false} ExpireAllNothingPending(m: Manager, ids: seq<string>, now: int, policy: ExpiryPolicy)
    requires forall i :: 0 <= i < |ids| ==> ids[i] in m.conns && !Pending(m, ids[i])
    ensures ExpireAll(m, ids, now, policy) == m
    decreases |ids|
  {
    if |ids| > 0 {
      assert ExpireOne(m, ids[0], now, policy) == m;
      assert forall i :: 0 <= i < |ids[1..]| ==> ids[1..][i] in m.conns && !Pending(m, ids[1..][i]) by {
        forall i | 0 <= i < |ids[1..]| ensures ids[1..][i] in m.conns && !Pending(m, ids[1..][i]) {
          assert ids[1..][i] == ids[i + 1];
        }
      }
      ExpireAllNothingPending(m, ids[1..], now, policy);
    }
  }

  /** The corrected reclamation leaves no idle record open, so repeating it at
      the same time changes nothing: nothing is counted twice. */
  lemma ReclaimIdleIdempotent(m: Manager, timeout: int, now: int)
    requires Valid(m)
    ensures var r := ReclaimIdle(m, timeout, now);
      ReclaimIdle(r, timeout, now) == r
  {
    var r := ReclaimIdle(m, timeout, now);
    var ids := IdleIds(r, timeout, now);
    forall i | 0 <= i < |ids| ensures ids[i] in r.conns && !Pending(r, ids[i]) {
      var k := ids[i];
      assert k in ids;
      ExpireIdleRecord(m, timeout, now, Forced, k);
    }
    ExpireAllNothingPending(r, ids, now, Forced);
  }

  /** The same scenario with the corrected reclamation: the record is closed,
      the counter drops once to 0, and a second pass changes nothing. */
  lemma ReclaimScenario(a: Address)
    ensures var m1 := CreateConnection(NewManager(), a, a, 1000, 0, 1000);
      var id := m1.0;
      var m2 := EstablishConnection(m1.1, id, 0).1;
      var m3 := ReclaimIdle(m2, 60, 100);
      && m3.stats.activeConnections == 0 && m3.conns[id].pcb.state == Closed
      && ReclaimIdle(m3, 60, 100) == m3
      && !CloseConnection(m3, id, 100).0
  {
    var id, m2 := OneEstablished(a);
    SingleIdlePass(m2, 60, 100, id, Forced);
    ReclaimIdleIdempotent(m2, 60, 100);
  }
}
