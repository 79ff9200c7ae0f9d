/** The protocol control block of the PCB benchmark: the eleven TCP-like
    connection states, the fixed table of permitted transitions, and the record
    of one connection with its counters and timestamps. Wall-clock time is the
    explicit parameter `now`; the random initial sequence number is a parameter
    of record creation. */
module PcbState {

  datatype ConnectionState =
    | Closed | Listen | SynSent | SynReceived | Established
    | FinWait1 | FinWait2 | CloseWait | Closing | LastAck | TimeWait

  /** Every state once, in declaration order. */
  const AllStates: seq<ConnectionState> :=
    [Closed, Listen, SynSent, SynReceived, Established, FinWait1, FinWait2, CloseWait, Closing, LastAck, TimeWait]

  /** The enum's `.value`, used as key of the state distribution. */
  function StateName(s: ConnectionState): string {
    match s
    case Closed => "CLOSED"
    case Listen => "LISTEN"
    case SynSent => "SYN_SENT"
    case SynReceived => "SYN_RECEIVED"
    case Established => "ESTABLISHED"
    case FinWait1 => "FIN_WAIT_1"
    case FinWait2 => "FIN_WAIT_2"
    case CloseWait => "CLOSE_WAIT"
    case Closing => "CLOSING"
    case LastAck => "LAST_ACK"
    case TimeWait => "TIME_WAIT"
  }

  /** `valid_transitions`: the states each state may move to. */
  function ValidTransitions(s: ConnectionState): seq<ConnectionState> {
    match s
    case Closed => [Listen, SynSent]
    case Listen => [SynReceived, Closed]
    case SynSent => [SynReceived, Established, Closed]
    case SynReceived => [Established, FinWait1, Closed]
    case Established => [FinWait1, CloseWait]
    case FinWait1 => [FinWait2, Closing, TimeWait]
    case FinWait2 => [TimeWait]
    case CloseWait => [LastAck]
    case Closing => [TimeWait]
    case LastAck => [Closed]
    case TimeWait => [Closed]
  }

  predicate CanTransition(from: ConnectionState, to: ConnectionState) {
    to in ValidTransitions(from)
  }

  datatype Address = Address(host: string, port: int)

  /** `ProtocolControlBlock`. Times are integers on the caller's clock. */
  datatype Pcb = Pcb(
    connectionId: string,
    localAddress: Address,
    remoteAddress: Address,
    state: ConnectionState,
    createdTime: int,
    lastActivity: int,
    bytesSent: nat,
    bytesReceived: nat,
    packetsSent: nat,
    packetsReceived: nat,
    retransmissions: nat,
    timeoutCount: nat,
    bufferSize: int,
    windowSize: int,
    sequenceNumber: int,
    acknowledgmentNumber: int)

  /** A record as the dataclass defaults build it: `CLOSED`, zero counters,
      both timestamps `now`, buffer 8192, window 65536. */
  function NewPcb(id: string, local: Address, remote: Address, now: int, initialSequence: int): Pcb {
    Pcb(id, local, remote, Closed, now, now, 0, 0, 0, 0, 0, 0, 8192, 65536, initialSequence, 0)
  }

  /** `is_active`: the record saw activity less than `timeout` ago. */
  predicate IsActive(p: Pcb, timeout: int, now: int) {
    now - p.lastActivity < timeout
  }

  /** `can_send_data`. */
  predicate CanSendData(p: Pcb) {
    p.state == Established
  }

  /** `transition_state`: moves to `target` and stamps the activity time exactly
      when the table permits it; a refused request leaves the record as it was. */
  function TransitionState(p: Pcb, target: ConnectionState, now: int): (r: (bool, Pcb))
    ensures r.0 <==> target in ValidTransitions(p.state)
    ensures r.0 ==> r.1 == p.(state := target, lastActivity := now)
    ensures !r.0 ==> r.1 == p
  {
    if CanTransition(p.state, target) then (true, p.(state := target, lastActivity := now))
    else (false, p)
  }

  // ---------------------------------------------------------------------------
  // Facts about the table
  // ---------------------------------------------------------------------------

  /** No state may transition to itself, so a repeated request always fails. */
  lemma NoSelfTransition(s: ConnectionState)
    ensures !CanTransition(s, s)
  {
  }

  /** `CLOSED` is entered only from the states that the table lists it for;
      in particular an established connection cannot jump to `CLOSED`. */
  lemma ClosedPredecessors(s: ConnectionState)
    ensures CanTransition(s, Closed) <==> s in {Listen, SynSent, SynReceived, LastAck, TimeWait}
  {
  }

  /** Only `CLOSED` may start an active open. */
  lemma SynSentOnlyFromClosed(s: ConnectionState)
    ensures CanTransition(s, SynSent) <==> s == Closed
  {
  }

  /** The handshake path `CLOSED -> SYN_SENT -> SYN_RECEIVED -> ESTABLISHED` and
      the teardown path `ESTABLISHED -> FIN_WAIT_1 -> FIN_WAIT_2 -> TIME_WAIT -> CLOSED`
      are both walks of the table. */
  lemma HandshakeAndTeardownPermitted()
    ensures CanTransition(Closed, SynSent) && CanTransition(SynSent, SynReceived)
    ensures CanTransition(SynReceived, Established)
    ensures CanTransition(Established, FinWait1) && CanTransition(FinWait1, FinWait2)
    ensures CanTransition(FinWait2, TimeWait) && CanTransition(TimeWait, Closed)
  {
  }

  /** A transition changes only the state and the activity time. */
  lemma TransitionKeepsCounters(p: Pcb, target: ConnectionState, now: int)
    ensures var q := TransitionState(p, target, now).1;
      q.connectionId == p.connectionId && q.bytesSent == p.bytesSent
      && q.bytesReceived == p.bytesReceived && q.packetsSent == p.packetsSent
      && q.packetsReceived == p.packetsReceived && q.sequenceNumber == p.sequenceNumber
  {
  }

  /** `AllStates` lists each state exactly once, and state names differ. */
  lemma AllStatesComplete(s: ConnectionState)
    ensures s in AllStates
  {
  }

  lemma StateNameInjective(a: ConnectionState, b: ConnectionState)
    requires StateName(a) == StateName(b)
    ensures a == b
  {
  }
}
