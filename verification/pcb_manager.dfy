/** `ProtocolControlBlockManager` of the PCB benchmark: the collection of
    connections keyed by id, the three-step handshake, the four-step teardown,
    idle cleanup and the statistics snapshot. The source keeps two dicts,
    `pcbs` and `protocols`, with the same keys, and each protocol holds the very
    record stored in `pcbs`; here one map from id to protocol stands for both,
    and `order` lists the ids in insertion order, the order a dict iterates in. */
module PcbManager {
  import opened Common
  import opened Utf8
  import opened Grouping
  import opened PcbState
  import opened PcbProtocol

  /** The `_stats` counters that the manager maintains incrementally. Its
      `bytes_transferred` and `packets_transferred` entries stay 0 and are
      replaced in every snapshot, so they are not kept here. */
  datatype Stats = Stats(
    totalConnections: int,
    activeConnections: int,
    closedConnections: int,
    timedOutConnections: int,
    stateTransitions: int)

  datatype Manager = Manager(
    conns: map<string, Protocol>,
    order: seq<string>,
    counter: nat,
    stats: Stats)

  function NewManager(): Manager {
    Manager(map[], [], 0, Stats(0, 0, 0, 0, 0))
  }

  // ---------------------------------------------------------------------------
  // Connection ids
  // ---------------------------------------------------------------------------

  /** `f"conn_{counter}_{tag}"`; the tag is the source's random number. */
  function ConnId(serial: nat, tag: nat): string {
    "conn_" + NatToString(serial) + "_" + NatToString(tag)
  }

  /** Reads the serial number back out of an id of the `ConnId` shape. */
  function Serial(id: string): Option<nat> {
    if StartsWith(id, "conn_") && '_' in id[5..] then
      var rest := id[5..];
      var k := FirstIndex(rest, '_');
      if AllDigits(rest[..k]) then Some(ParseDigits(rest[..k])) else None
    else None
  }

  lemma FirstIndexAfterDigits(a: string, b: string)
    requires AllDigits(a)
    ensures '_' in a + "_" + b && FirstIndex(a + "_" + b, '_') == |a|
  {
    var s := a + "_" + b;
    assert s[|a|] == '_';
    var k := FirstIndex(s, '_');
    if k < |a| {
      assert false;
    } else if k > |a| {
      assert false;
    }
  }

  /** The serial number is recoverable from an id, whatever the tag. */
  lemma SerialOfConnId(serial: nat, tag: nat)
    ensures Serial(ConnId(serial, tag)) == Some(serial)
  {
    var a, b := NatToString(serial), NatToString(tag);
    var id := ConnId(serial, tag);
    assert id[..5] == "conn_";
    assert id[5..] == a + "_" + b;
    FirstIndexAfterDigits(a, b);
    assert (a + "_" + b)[..|a|] == a;
    ParseNatToString(serial);
  }

  // ---------------------------------------------------------------------------
  // Well-formedness
  // ---------------------------------------------------------------------------

  /** What holds of a record in a manager: it knows its own id, it is either
      `CLOSED` or `ESTABLISHED`, it is connected only when `ESTABLISHED`, and
      no complete line is left in its buffer. */
  predicate RecordOk(id: string, pr: Protocol) {
    && pr.pcb.connectionId == id
    && (pr.pcb.state == Closed || pr.pcb.state == Established)
    && (pr.isConnected ==> pr.pcb.state == Established)
    && NoNewline(pr.dataBuffer)
  }

  /** The invariant every operation keeps: the i-th created id carries serial
      i + 1, the ids in `order` are exactly the keys, every record is
      well-formed and `total_connections` counts the creations. */
  predicate Valid(m: Manager) {
    && |m.order| == m.counter
    && (forall i :: 0 <= i < |m.order| ==> Serial(m.order[i]) == Some(i + 1))
    && (forall id :: id in m.conns ==> id in m.order)
    && (forall i :: 0 <= i < |m.order| ==> m.order[i] in m.conns)
    && (forall id :: id in m.conns ==> RecordOk(id, m.conns[id]))
    && m.stats.totalConnections == m.counter
  }

  lemma ValidDistinct(m: Manager)
    requires Valid(m)
    ensures Distinct(m.order)
  {
    forall i, j | 0 <= i < j < |m.order|
      ensures m.order[i] != m.order[j]
    {
      assert Serial(m.order[i]) != Serial(m.order[j]);
    }
  }

  /** `len(self.pcbs)` is the number of ids in `order`. */
  lemma ValidSize(m: Manager)
    requires Valid(m)
    ensures |m.conns| == |m.order|
  {
    ValidDistinct(m);
    KeysSize(m.conns, m.order);
  }

  /** A map whose keys a duplicate-free sequence lists has as many entries as
      the sequence. */
  lemma KeysSize<V>(conns: map<string, V>, order: seq<string>)
    requires Distinct(order)
    requires forall id :: id in conns ==> id in order
    requires forall i :: 0 <= i < |order| ==> order[i] in conns
    ensures |conns| == |order|
  {
    DistinctSetSize(order);
    assert conns.Keys == SetOf(order);
  }

  // ---------------------------------------------------------------------------
  // Record-level sequences
  // ---------------------------------------------------------------------------

  /** The handshake of `establish_connection`: `SYN_SENT`, `SYN_RECEIVED`,
      `ESTABLISHED`, each through the table, then `connection_made`. A refused
      step leaves the record at the state it reached. */
  function Handshake(pr: Protocol, now: int): (r: (bool, Protocol))
    ensures r.0 <==> pr.pcb.state == Closed
    ensures !r.0 ==> r.1 == pr
    ensures r.0 ==> r.1 == pr.(pcb := pr.pcb.(state := Established, lastActivity := now), isConnected := true)
  {
    var t1 := TransitionState(pr.pcb, SynSent, now);
    if !t1.0 then (false, pr.(pcb := t1.1))
    else
      var t2 := TransitionState(t1.1, SynReceived, now);
      if !t2.0 then (false, pr.(pcb := t2.1))
      else
        var t3 := TransitionState(t2.1, Established, now);
        if !t3.0 then (false, pr.(pcb := t3.1))
        else (true, ConnectionMade(pr.(pcb := t3.1), now))
  }

  /** The teardown of `close_connection`: only from `ESTABLISHED`, through
      `FIN_WAIT_1`, `FIN_WAIT_2`, `TIME_WAIT` and `CLOSED`, then
      `connection_lost`. */
  function Teardown(pr: Protocol, now: int): (r: (bool, Protocol))
    ensures r.0 <==> pr.pcb.state == Established
    ensures !r.0 ==> r.1 == pr
    ensures r.0 ==> r.1 == pr.(pcb := pr.pcb.(state := Closed, lastActivity := now), isConnected := false)
  {
    if pr.pcb.state != Established then (false, pr)
    else
      var t1 := TransitionState(pr.pcb, FinWait1, now);
      if !t1.0 then (false, pr.(pcb := t1.1))
      else
        var t2 := TransitionState(t1.1, FinWait2, now);
        if !t2.0 then (false, pr.(pcb := t2.1))
        else
          var t3 := TransitionState(t2.1, TimeWait, now);
          if !t3.0 then (false, pr.(pcb := t3.1))
          else
            var t4 := TransitionState(t3.1, Closed, now);
            if !t4.0 then (false, pr.(pcb := t4.1))
            else (true, ConnectionLost(pr.(pcb := t4.1), now))
  }

  // ---------------------------------------------------------------------------
  // Manager operations
  // ---------------------------------------------------------------------------

  /** `create_connection`: a `CLOSED` record under the next serial number. */
  function CreateConnection(m: Manager, local: Address, remote: Address, tag: nat, now: int,
                            initialSequence: int): (r: (string, Manager))
    ensures r.1.conns.Keys == m.conns.Keys + {r.0}
    ensures r.1.conns == m.conns[r.0 := NewProtocol(NewPcb(r.0, local, remote, now, initialSequence))]
    ensures Serial(r.0) == Some(m.counter + 1)
    ensures r.1.stats == m.stats.(totalConnections := m.stats.totalConnections + 1)
  {
    var serial := m.counter + 1;
    var id := ConnId(serial, tag);
    SerialOfConnId(serial, tag);
    var pr := NewProtocol(NewPcb(id, local, remote, now, initialSequence));
    (id, m.(conns := m.conns[id := pr],
            order := if id in m.conns then m.order else m.order + [id],
            counter := serial,
            stats := m.stats.(totalConnections := m.stats.totalConnections + 1)))
  }

  /** `establish_connection`: succeeds exactly for a known `CLOSED` record,
      which ends `ESTABLISHED` and connected; one more active connection and
      three more transitions. Otherwise nothing changes. */
  function EstablishConnection(m: Manager, id: string, now: int): (r: (bool, Manager))
    ensures r.0 <==> id in m.conns && m.conns[id].pcb.state == Closed
    ensures !r.0 ==> r.1 == m
    ensures r.0 ==>
      && r.1.conns == m.conns[id := m.conns[id].(pcb := m.conns[id].pcb.(state := Established, lastActivity := now),
                                                  isConnected := true)]
      && r.1.order == m.order && r.1.counter == m.counter
      && r.1.stats == m.stats.(activeConnections := m.stats.activeConnections + 1,
                               stateTransitions := m.stats.stateTransitions + 3)
  {
    if id !in m.conns then (false, m)
    else
      var h := Handshake(m.conns[id], now);
      if h.0 then
        (true, m.(conns := m.conns[id := h.1],
                  stats := m.stats.(activeConnections := m.stats.activeConnections + 1,
                                    stateTransitions := m.stats.stateTransitions + 3)))
      else (false, m.(conns := m.conns[id := h.1]))
  }

  /** `send_message`: sends the UTF-8 bytes of `message + "\n"` on a known id. */
  function SendMessage(m: Manager, id: string, message: string, now: int): (r: (bool, Manager))
    ensures id !in m.conns ==> r == (false, m)
    ensures id in m.conns ==>
      var s := SendData(m.conns[id], Encode(message + "\n"), now);
      r.0 == s.0 && r.1 == m.(conns := m.conns[id := s.1])
  {
    if id !in m.conns then (false, m)
    else
      var s := SendData(m.conns[id], Encode(message + "\n"), now);
      (s.0, m.(conns := m.conns[id := s.1]))
  }

  /** `simulate_received_message`: delivers the UTF-8 bytes of `message + "\n"`
      to a known id. */
  function SimulateReceivedMessage(m: Manager, id: string, message: string, now: int): (r: Manager)
    ensures id !in m.conns ==> r == m
    ensures id in m.conns ==> r == m.(conns := m.conns[id := DataReceived(m.conns[id], Encode(message + "\n"), now)])
  {
    if id !in m.conns then m
    else m.(conns := m.conns[id := DataReceived(m.conns[id], Encode(message + "\n"), now)])
  }

  /** `close_connection`: succeeds exactly for a known `ESTABLISHED` record,
      which ends `CLOSED`, disconnected and still present; one active
      connection fewer, one more closed and four more transitions. */
  function CloseConnection(m: Manager, id: string, now: int): (r: (bool, Manager))
    ensures r.0 <==> id in m.conns && m.conns[id].pcb.state == Established
    ensures !r.0 ==> r.1 == m
    ensures r.0 ==>
      && r.1.conns == m.conns[id := m.conns[id].(pcb := m.conns[id].pcb.(state := Closed, lastActivity := now),
                                                  isConnected := false)]
      && r.1.order == m.order && r.1.counter == m.counter
      && r.1.stats == m.stats.(activeConnections := m.stats.activeConnections - 1,
                               closedConnections := m.stats.closedConnections + 1,
                               stateTransitions := m.stats.stateTransitions + 4)
  {
    if id !in m.conns then (false, m)
    else
      var t := Teardown(m.conns[id], now);
      if t.0 then
        (true, m.(conns := m.conns[id := t.1],
                  stats := m.stats.(activeConnections := m.stats.activeConnections - 1,
                                    closedConnections := m.stats.closedConnections + 1,
                                    stateTransitions := m.stats.stateTransitions + 4)))
      else (false, m.(conns := m.conns[id := t.1]))
  }

  // ---------------------------------------------------------------------------
  // Idle cleanup
  // ---------------------------------------------------------------------------

  /** How a timed-out record is closed: `ThroughTable` is what
      `cleanup_inactive_connections` does, requesting `CLOSED` through the
      transition table; `Forced` moves it to `CLOSED` unconditionally. */
  datatype ExpiryPolicy = ThroughTable | Forced

  /** The record after a timeout: closed as the policy says, then
      `connection_lost`. */
  function Expire(pr: Protocol, now: int, policy: ExpiryPolicy): (r: Protocol)
    ensures !r.isConnected
    ensures r.pcb.bytesSent == pr.pcb.bytesSent && r.pcb.bytesReceived == pr.pcb.bytesReceived
    ensures r.pcb.packetsSent == pr.pcb.packetsSent && r.pcb.packetsReceived == pr.pcb.packetsReceived
    ensures r.dataBuffer == pr.dataBuffer && r.pcb.connectionId == pr.pcb.connectionId
    ensures policy == Forced ==> r.pcb.state == Closed
    ensures policy == ThroughTable ==>
      r.pcb.state == (if CanTransition(pr.pcb.state, Closed) then Closed else pr.pcb.state)
  {
    match policy
    case ThroughTable => ConnectionLost(pr.(pcb := TransitionState(pr.pcb, Closed, now).1), now)
    case Forced => ConnectionLost(pr.(pcb := pr.pcb.(state := Closed, lastActivity := now)), now)
  }

  /** Whether expiring the record lowers `active_connections`: the source asks
      whether the record is still `ESTABLISHED` after the attempt to close it;
      the forced policy asks whether it was `ESTABLISHED` before. */
  predicate DropsActive(pr: Protocol, now: int, policy: ExpiryPolicy) {
    match policy
    case ThroughTable => Expire(pr, now, policy).pcb.state == Established
    case Forced => pr.pcb.state == Established
  }

  /** The record under `id` times out now: it is not yet `CLOSED`. */
  predicate Pending(m: Manager, id: string) {
    id in m.conns && m.conns[id].pcb.state != Closed
  }

  predicate Drops(m: Manager, id: string, now: int, policy: ExpiryPolicy) {
    Pending(m, id) && DropsActive(m.conns[id], now, policy)
  }

  /** The second loop of `cleanup_inactive_connections`, for one id. */
  function ExpireOne(m: Manager, id: string, now: int, policy: ExpiryPolicy): (r: Manager)
    requires id in m.conns
    ensures !Pending(m, id) ==> r == m
    ensures Pending(m, id) ==>
      && r.conns == m.conns[id := Expire(m.conns[id], now, policy)]
      && r.order == m.order && r.counter == m.counter
      && r.stats == m.stats.(
           timedOutConnections := m.stats.timedOutConnections + 1,
           activeConnections := m.stats.activeConnections - (if Drops(m, id, now, policy) then 1 else 0))
  {
    var pr := m.conns[id];
    if pr.pcb.state == Closed then m
    else
      var expired := Expire(pr, now, policy);
      var drop := match policy
        case ThroughTable => expired.pcb.state == Established
        case Forced => pr.pcb.state == Established;
      m.(conns := m.conns[id := expired],
         stats := m.stats.(timedOutConnections := m.stats.timedOutConnections + 1,
                           activeConnections := m.stats.activeConnections - (if drop then 1 else 0)))
  }

  /** The second loop over the collected ids, in order. */
  function ExpireAll(m: Manager, ids: seq<string>, now: int, policy: ExpiryPolicy): (r: Manager)
    requires forall i :: 0 <= i < |ids| ==> ids[i] in m.conns
    ensures r.order == m.order && r.counter == m.counter
    ensures r.conns.Keys == m.conns.Keys
    ensures r.stats.totalConnections == m.stats.totalConnections
    ensures r.stats.closedConnections == m.stats.closedConnections
    ensures r.stats.stateTransitions == m.stats.stateTransitions
    decreases |ids|
  {
    if |ids| == 0 then m
    else ExpireAll(ExpireOne(m, ids[0], now, policy), ids[1..], now, policy)
  }

  /** Each collected record that is not yet `CLOSED` is expired once, and
      every other record is left alone. */
  lemma {:induction false} ExpireAllRecord(m: Manager, ids: seq<string>, now: int, policy: ExpiryPolicy, id: string)
    requires forall i :: 0 <= i < |ids| ==> ids[i] in m.conns
    requires Distinct(ids) && id in m.conns
    ensures ExpireAll(m, ids, now, policy).conns[id]
         == if id in ids && Pending(m, id) then Expire(m.conns[id], now, policy) else m.conns[id]
    decreases |ids|
  {
    if |ids| > 0 {
      var m1 := ExpireOne(m, ids[0], now, policy);
      var rest := ids[1..];
      ExpireAllStep(m, ids, now, policy);
      ExpireAllRecord(m1, rest, now, policy, id);
      assert ExpireAll(m, ids, now, policy) == ExpireAll(m1, rest, now, policy);
      if id != ids[0] {
        assert m1.conns[id] == m.conns[id];
        assert id in ids <==> id in rest by {
          assert ids == [ids[0]] + rest;
        }
      }
    }
  }

  /** The timeout and active counters move by the number of expired records
      and of those that drop out of the active count. */
  lemma {:induction false} ExpireAllCounts(m: Manager, ids: seq<string>, now: int, policy: ExpiryPolicy)
    requires forall i :: 0 <= i < |ids| ==> ids[i] in m.conns
    requires Distinct(ids)
    ensures var r := ExpireAll(m, ids, now, policy);
      && r.stats.timedOutConnections == m.stats.timedOutConnections + CountIf(ids, id => Pending(m, id))
      && r.stats.activeConnections == m.stats.activeConnections - CountIf(ids, id => Drops(m, id, now, policy))
    decreases |ids|
  {
    if |ids| > 0 {
      var m1 := ExpireOne(m, ids[0], now, policy);
      ExpireAllStep(m, ids, now, policy);
      ExpireAllStepCounts(m, ids, now, policy);
      ExpireAllCounts(m1, ids[1..], now, policy);
    }
  }

  /** After the first id is handled, the rest are still distinct known ids. */
  lemma ExpireAllStep(m: Manager, ids: seq<string>, now: int, policy: ExpiryPolicy)
    requires |ids| > 0
    requires forall i :: 0 <= i < |ids| ==> ids[i] in m.conns
    requires Distinct(ids)
    ensures var m1 := ExpireOne(m, ids[0], now, policy);
      && Distinct(ids[1..]) && ids[0] !in ids[1..]
      && (forall i :: 0 <= i < |ids[1..]| ==> ids[1..][i] in m1.conns)
  {
    var rest := ids[1..];
    forall i, j | 0 <= i < j < |rest| ensures rest[i] != rest[j] {
      assert rest[i] == ids[i + 1] && rest[j] == ids[j + 1];
    }
    forall i | 0 <= i < |rest| ensures rest[i] != ids[0] && rest[i] in m.conns {
      assert rest[i] == ids[i + 1];
    }
  }

  /** ... and they see the same records as before, so they count the same. */
  lemma ExpireAllStepCounts(m: Manager, ids: seq<string>, now: int, policy: ExpiryPolicy)
    requires |ids| > 0
    requires forall i :: 0 <= i < |ids| ==> ids[i] in m.conns
    requires Distinct(ids)
    ensures var m1 := ExpireOne(m, ids[0], now, policy);
      && CountIf(ids[1..], id => Pending(m1, id)) == CountIf(ids[1..], id => Pending(m, id))
      && CountIf(ids[1..], id => Drops(m1, id, now, policy)) == CountIf(ids[1..], id => Drops(m, id, now, policy))
  {
    var m1 := ExpireOne(m, ids[0], now, policy);
    var rest := ids[1..];
    ExpireAllStep(m, ids, now, policy);
    forall i | 0 <= i < |rest| ensures m1.conns[rest[i]] == m.conns[rest[i]] {
      assert rest[i] in rest;
    }
    CountIfCongruent(rest, id => Pending(m1, id), id => Pending(m, id));
    CountIfCongruent(rest, id => Drops(m1, id, now, policy), id => Drops(m, id, now, policy));
  }

  /** The ids whose records saw no activity for `timeout` or longer, in dict order. */
  function IdleIds(m: Manager, timeout: int, now: int): (ids: seq<string>)
    ensures forall i :: 0 <= i < |ids| ==> ids[i] in m.conns
    ensures forall id :: id in ids <==> id in m.order && id in m.conns && !IsActive(m.conns[id].pcb, timeout, now)
  {
    var ids := Filter(m.order, id => id in m.conns && !IsActive(m.conns[id].pcb, timeout, now));
    assert forall i :: 0 <= i < |ids| ==> ids[i] in ids;
    ids
  }

  /** `cleanup_inactive_connections(timeout)` as the source has it: collect the
      idle ids, then request `CLOSED` through the table for each one not yet
      `CLOSED`. No record is ever removed. */
  function CleanupInactive(m: Manager, timeout: int, now: int): (r: Manager)
    ensures r.order == m.order && r.counter == m.counter && r.conns.Keys == m.conns.Keys
  {
    ExpireAll(m, IdleIds(m, timeout, now), now, ThroughTable)
  }

  /** Idle reclamation as intended: every idle record not yet `CLOSED` is
      forced to `CLOSED`, and the active count drops for those that were
      `ESTABLISHED`. */
  function ReclaimIdle(m: Manager, timeout: int, now: int): (r: Manager)
    ensures r.order == m.order && r.counter == m.counter && r.conns.Keys == m.conns.Keys
  {
    ExpireAll(m, IdleIds(m, timeout, now), now, Forced)
  }

  /** The records a cleanup pass touches, under either policy: exactly the idle
      ones not yet `CLOSED`, each once. */
  lemma ExpireIdleRecord(m: Manager, timeout: int, now: int, policy: ExpiryPolicy, id: string)
    requires Valid(m) && id in m.conns
    ensures ExpireAll(m, IdleIds(m, timeout, now), now, policy).conns[id]
         == if !IsActive(m.conns[id].pcb, timeout, now) && m.conns[id].pcb.state != Closed
            then Expire(m.conns[id], now, policy) else m.conns[id]
  {
    IdleIdsDistinct(m, timeout, now);
    ExpireAllRecord(m, IdleIds(m, timeout, now), now, policy, id);
  }

  /** A cleanup pass counts one timeout per idle record not yet `CLOSED`. */
  lemma ExpireIdleCounts(m: Manager, timeout: int, now: int, policy: ExpiryPolicy)
    requires Valid(m)
    ensures var ids := IdleIds(m, timeout, now);
      var r := ExpireAll(m, ids, now, policy);
      && r.stats.timedOutConnections == m.stats.timedOutConnections + CountIf(ids, id => Pending(m, id))
      && r.stats.activeConnections == m.stats.activeConnections - CountIf(ids, id => Drops(m, id, now, policy))
  {
    IdleIdsDistinct(m, timeout, now);
    ExpireAllCounts(m, IdleIds(m, timeout, now), now, policy);
  }

  lemma IdleIdsDistinct(m: Manager, timeout: int, now: int)
    requires Valid(m)
    ensures Distinct(IdleIds(m, timeout, now))
  {
    ValidDistinct(m);
    FilterDistinct(m.order, id => id in m.conns && !IsActive(m.conns[id].pcb, timeout, now));
  }

  // ---------------------------------------------------------------------------
  // Statistics
  // ---------------------------------------------------------------------------

  /** The snapshot `get_statistics` returns. */
  datatype Statistics = Statistics(
    totalConnections: int,
    activeConnections: int,
    closedConnections: int,
    timedOutConnections: int,
    stateTransitions: int,
    bytesTransferred: int,
    packetsTransferred: int,
    bytesSent: int,
    bytesReceived: int,
    packetsSent: int,
    packetsReceived: int,
    currentConnections: nat,
    stateDistribution: map<string, nat>)

  /** The records in dict order. */
  function Records(m: Manager): seq<Pcb> {
    RecordsOf(m.conns, m.order)
  }

  function RecordsOf(conns: map<string, Protocol>, ids: seq<string>): (ps: seq<Pcb>)
    ensures |ps| <= |ids|
  {
    if |ids| == 0 then []
    else (if ids[0] in conns then [conns[ids[0]].pcb] else []) + RecordsOf(conns, ids[1..])
  }

  function StateNames(ps: seq<Pcb>): (names: seq<string>)
    ensures |names| == |ps|
  {
    seq(|ps|, i requires 0 <= i < |ps| => StateName(ps[i].state))
  }

  function SumBytesSent(ps: seq<Pcb>): nat {
    if |ps| == 0 then 0 else ps[0].bytesSent + SumBytesSent(ps[1..])
  }

  function SumBytesReceived(ps: seq<Pcb>): nat {
    if |ps| == 0 then 0 else ps[0].bytesReceived + SumBytesReceived(ps[1..])
  }

  function SumPacketsSent(ps: seq<Pcb>): nat {
    if |ps| == 0 then 0 else ps[0].packetsSent + SumPacketsSent(ps[1..])
  }

  function SumPacketsReceived(ps: seq<Pcb>): nat {
    if |ps| == 0 then 0 else ps[0].packetsReceived + SumPacketsReceived(ps[1..])
  }

  /** `get_statistics`: the maintained counters, the traffic summed over every
      record, the number of records and the records per state name. */
  function GetStatistics(m: Manager): (s: Statistics)
    ensures s.bytesTransferred == s.bytesSent + s.bytesReceived
    ensures s.packetsTransferred == s.packetsSent + s.packetsReceived
    ensures s.currentConnections == |m.conns|
    ensures s.totalConnections == m.stats.totalConnections && s.activeConnections == m.stats.activeConnections
    ensures s.closedConnections == m.stats.closedConnections
    ensures s.timedOutConnections == m.stats.timedOutConnections
    ensures s.stateTransitions == m.stats.stateTransitions
    ensures forall k :: k in s.stateDistribution <==> k in StateNames(Records(m))
    ensures s.stateDistribution == Tally(StateNames(Records(m)))
    ensures s.bytesSent == SumBytesSent(Records(m)) && s.bytesReceived == SumBytesReceived(Records(m))
    ensures s.packetsSent == SumPacketsSent(Records(m)) && s.packetsReceived == SumPacketsReceived(Records(m))
  {
    var ps := Records(m);
    var sent, received := SumBytesSent(ps), SumBytesReceived(ps);
    var psent, preceived := SumPacketsSent(ps), SumPacketsReceived(ps);
    Statistics(m.stats.totalConnections, m.stats.activeConnections, m.stats.closedConnections,
               m.stats.timedOutConnections, m.stats.stateTransitions,
               sent + received, psent + preceived, sent, received, psent, preceived,
               |m.conns|, Tally(StateNames(ps)))
  }

  /** Every record is counted once in the records list of a valid manager. */
  lemma {:induction false} RecordsOfLength(conns: map<string, Protocol>, ids: seq<string>)
    requires forall i :: 0 <= i < |ids| ==> ids[i] in conns
    ensures |RecordsOf(conns, ids)| == |ids|
    decreases |ids|
  {
    if |ids| > 0 {
      RecordsOfLength(conns, ids[1..]);
    }
  }

  /** The per-state counts of the snapshot add up to the number of records,
      taking the states in the order the distribution lists them. */
  lemma StateDistributionTotal(m: Manager)
    requires Valid(m)
    ensures var s := GetStatistics(m);
      var names := StateNames(Records(m));
      SumOver(s.stateDistribution, DistinctKeys(names)) == s.currentConnections
  {
    var names := StateNames(Records(m));
    RecordsOfLength(m.conns, m.order);
    ValidSize(m);
    TallySum(names);
  }

  /** The traffic sums read one record off the front. */
  lemma {:induction false} SumsCons(h: seq<Pcb>, rest: seq<Pcb>)
    requires |h| <= 1
    ensures SumBytesSent(h + rest) == (if |h| == 1 then h[0].bytesSent else 0) + SumBytesSent(rest)
    ensures SumBytesReceived(h + rest) == (if |h| == 1 then h[0].bytesReceived else 0) + SumBytesReceived(rest)
    ensures SumPacketsSent(h + rest) == (if |h| == 1 then h[0].packetsSent else 0) + SumPacketsSent(rest)
    ensures SumPacketsReceived(h + rest) == (if |h| == 1 then h[0].packetsReceived else 0) + SumPacketsReceived(rest)
  {
    if |h| == 1 {
      assert (h + rest)[1..] == rest;
    } else {
      assert h + rest == rest;
    }
  }

  /** Replacing the record under an id listed once changes each traffic sum by
      exactly that record's change. */
  lemma {:induction false} SumsPointUpdate(conns: map<string, Protocol>, ids: seq<string>, id: string, pr: Protocol)
    requires id in conns && Distinct(ids)
    ensures var old_, new_ := RecordsOf(conns, ids), RecordsOf(conns[id := pr], ids);
      var p, q := conns[id].pcb, pr.pcb;
      && SumBytesSent(new_) + (if id in ids then p.bytesSent else 0)
         == SumBytesSent(old_) + (if id in ids then q.bytesSent else 0)
      && SumBytesReceived(new_) + (if id in ids then p.bytesReceived else 0)
         == SumBytesReceived(old_) + (if id in ids then q.bytesReceived else 0)
      && SumPacketsSent(new_) + (if id in ids then p.packetsSent else 0)
         == SumPacketsSent(old_) + (if id in ids then q.packetsSent else 0)
      && SumPacketsReceived(new_) + (if id in ids then p.packetsReceived else 0)
         == SumPacketsReceived(old_) + (if id in ids then q.packetsReceived else 0)
    decreases |ids|
  {
    if |ids| > 0 {
      var conns' := conns[id := pr];
      assert Distinct(ids[1..]) by {
        forall i, j | 0 <= i < j < |ids[1..]| ensures ids[1..][i] != ids[1..][j] {
          assert ids[1..][i] == ids[i + 1] && ids[1..][j] == ids[j + 1];
        }
      }
      assert ids[0] == id ==> id !in ids[1..];
      assert id in ids <==> ids[0] == id || id in ids[1..];
      SumsPointUpdate(conns, ids[1..], id, pr);
      var h := if ids[0] in conns then [conns[ids[0]].pcb] else [];
      var h' := if ids[0] in conns' then [conns'[ids[0]].pcb] else [];
      assert RecordsOf(conns, ids) == h + RecordsOf(conns, ids[1..]);
      assert RecordsOf(conns', ids) == h' + RecordsOf(conns', ids[1..]);
      SumsCons(h, RecordsOf(conns, ids[1..]));
      SumsCons(h', RecordsOf(conns', ids[1..]));
    }
  }

  /** A send that goes through adds its bytes and one packet to the summed
      traffic `get_statistics` reports, and a refused one adds nothing; the
      received totals never move. */
  lemma {:induction false} SendMessageStatistics(m: Manager, id: string, message: string, now: int)
    requires Valid(m)
    ensures var r := SendMessage(m, id, message, now);
      var before, after := GetStatistics(m), GetStatistics(r.1);
      && after.bytesSent == before.bytesSent + (if r.0 then |Encode(message + "\n")| else 0)
      && after.packetsSent == before.packetsSent + (if r.0 then 1 else 0)
      && after.bytesReceived == before.bytesReceived
      && after.packetsReceived == before.packetsReceived
  {
    if id in m.conns {
      var s := SendData(m.conns[id], Encode(message + "\n"), now);
      SendMessageRecords(m, id, s.1);
      assert SendMessage(m, id, message, now).1 == m.(conns := m.conns[id := s.1]);
    }
  }

  /** The traffic sums after the record under a listed id is replaced. */
  lemma {:induction false} SendMessageRecords(m: Manager, id: string, pr: Protocol)
    requires Valid(m) && id in m.conns
    ensures var before, after := Records(m), Records(m.(conns := m.conns[id := pr]));
      var p, q := m.conns[id].pcb, pr.pcb;
      && SumBytesSent(after) + p.bytesSent == SumBytesSent(before) + q.bytesSent
      && SumBytesReceived(after) + p.bytesReceived == SumBytesReceived(before) + q.bytesReceived
      && SumPacketsSent(after) + p.packetsSent == SumPacketsSent(before) + q.packetsSent
      && SumPacketsReceived(after) + p.packetsReceived == SumPacketsReceived(before) + q.packetsReceived
  {
    assert id in m.order;
    ValidDistinct(m);
    SumsPointUpdate(m.conns, m.order, id, pr);
  }

  // ---------------------------------------------------------------------------
  // Sequences of operations
  // ---------------------------------------------------------------------------

  /** The manager's public operations. `Cleanup` is
      `cleanup_inactive_connections` as written; `Reclaim` is the corrected
      idle reclamation. */
  datatype Op =
    | Create(local: Address, remote: Address, tag: nat, initialSequence: int)
    | Establish(id: string)
    | Send(id: string, message: string)
    | Receive(id: string, message: string)
    | Close(id: string)
    | Cleanup(timeout: int)
    | Reclaim(timeout: int)

  /** An operation and the clock reading at which it happens. */
  datatype Event = Event(at: int, op: Op)

  function Apply(m: Manager, e: Event): (r: Manager)
    ensures m.conns.Keys <= r.conns.Keys
    ensures r.counter >= m.counter
  {
    match e.op
    case Create(local, remote, tag, initialSequence) =>
      CreateConnection(m, local, remote, tag, e.at, initialSequence).1
    case Establish(id) => EstablishConnection(m, id, e.at).1
    case Send(id, message) => SendMessage(m, id, message, e.at).1
    case Receive(id, message) => SimulateReceivedMessage(m, id, message, e.at)
    case Close(id) => CloseConnection(m, id, e.at).1
    case Cleanup(timeout) => CleanupInactive(m, timeout, e.at)
    case Reclaim(timeout) => ReclaimIdle(m, timeout, e.at)
  }

  /** The manager after the events, in order. No record is ever removed. */
  function Run(m: Manager, events: seq<Event>): (r: Manager)
    ensures m.conns.Keys <= r.conns.Keys
    ensures r.counter >= m.counter
    decreases |events|
  {
    if |events| == 0 then m else Run(Apply(m, events[0]), events[1..])
  }
}
