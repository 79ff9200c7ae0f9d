/** The TCP benchmark's fallback transport: a connection object that answers
    each message it is sent with one response in its receive queue, a server
    that numbers the connections it accepts, and a client. Latency sleeps are
    dropped, the clock is the explicit `now`, and the random numbers (the reply
    to `GET`, the client's local port) are parameters. */
module Tcp {
  import opened Common
  import opened Utf8
  import opened Grouping

  datatype Endpoint = Endpoint(host: string, port: int)

  /** `MockTCPConnection`. The send buffer the source allocates is never used
      and is not modelled. */
  datatype Connection = Connection(
    id: string,
    local: Endpoint,
    remote: Endpoint,
    isConnected: bool,
    bytesSent: nat,
    bytesReceived: nat,
    messagesSent: nat,
    messagesReceived: nat,
    createdTime: int,
    lastActivity: int,
    receiveBuffer: seq<seq<byte>>)

  function NewConnection(id: string, local: Endpoint, remote: Endpoint, now: int): Connection {
    Connection(id, local, remote, false, 0, 0, 0, 0, now, now, [])
  }

  /** `connect`: always succeeds. */
  function Connect(c: Connection, now: int): (r: (bool, Connection))
    ensures r.0 && r.1.isConnected
    ensures r.1 == c.(isConnected := true, lastActivity := now)
  {
    (true, c.(isConnected := true, lastActivity := now))
  }

  /** `close`. */
  function Close(c: Connection): Connection {
    c.(isConnected := false)
  }

  // ---------------------------------------------------------------------------
  // The responder
  // ---------------------------------------------------------------------------

  /** The reply text for a stripped message, by the first of the prefixes
      `ECHO`, `PING`, `GET`, `DATA` it starts with; `number` is the random
      reply to `GET`. */
  function Respond(message: string, number: nat): string {
    if StartsWith(message, "ECHO") then "ECHO_REPLY: " + SliceFrom(message, 5) + "\n"
    else if StartsWith(message, "PING") then "PONG: " + SliceFrom(message, 5) + "\n"
    else if StartsWith(message, "GET") then "RESPONSE: " + NatToString(number) + "\n"
    else if StartsWith(message, "DATA") then "ACK: " + NatToString(|message|) + " bytes processed\n"
    else "UNKNOWN: " + message + "\n"
  }

  const InvalidUtf8Reply: string := "ERROR: Invalid UTF-8\n"

  /** `_process_data`: decode strictly, strip, respond; bytes that are not
      UTF-8 get the fixed error reply. */
  function ProcessData(data: seq<byte>, number: nat): (response: seq<byte>)
    ensures |response| > 0
    ensures Decode(data).None? ==> response == Encode(InvalidUtf8Reply)
    ensures Decode(data).Some? ==> response == Encode(Respond(Strip(Decode(data).value), number))
  {
    match Decode(data)
    case None => Encode(InvalidUtf8Reply)
    case Some(text) =>
      var reply := Respond(Strip(text), number);
      assert |reply| > 0 by { RespondTagged(Strip(text), number); }
      Encode(reply)
  }

  /** `send_data`: refused while disconnected; otherwise counts the bytes sent
      and queues the response, counting it as received. */
  function SendData(c: Connection, data: seq<byte>, now: int, number: nat): (r: (bool, Connection))
    ensures r.0 <==> c.isConnected
    ensures !r.0 ==> r.1 == c
    ensures r.0 ==> r.1.bytesSent == c.bytesSent + |data| && r.1.messagesSent == c.messagesSent + 1
    ensures r.0 ==> r.1.receiveBuffer == c.receiveBuffer + [ProcessData(data, number)]
    ensures r.0 ==> (r.1.bytesReceived == c.bytesReceived + |ProcessData(data, number)|
                     && r.1.messagesReceived == c.messagesReceived + 1)
    ensures r.1.isConnected == c.isConnected && r.1.id == c.id
  {
    if !c.isConnected then (false, c)
    else
      var sent := c.(bytesSent := c.bytesSent + |data|, messagesSent := c.messagesSent + 1, lastActivity := now);
      var response := ProcessData(data, number);
      if |response| > 0 then
        (true, sent.(receiveBuffer := sent.receiveBuffer + [response],
                     bytesReceived := sent.bytesReceived + |response|,
                     messagesReceived := sent.messagesReceived + 1))
      else (true, sent)
  }

  /** `receive_data`: the oldest queued response, or `None` on an empty queue. */
  function ReceiveData(c: Connection): (r: (Option<seq<byte>>, Connection))
    ensures |c.receiveBuffer| == 0 <==> r.0.None?
    ensures r.0.Some? ==> c.receiveBuffer == [r.0.value] + r.1.receiveBuffer
    ensures r.1 == c.(receiveBuffer := r.1.receiveBuffer)
  {
    if |c.receiveBuffer| == 0 then (None, c)
    else (Some(c.receiveBuffer[0]), c.(receiveBuffer := c.receiveBuffer[1..]))
  }

  // ---------------------------------------------------------------------------
  // Responder properties
  // ---------------------------------------------------------------------------

  lemma {:induction false} StartsWithConcat(a: string, b: string)
    ensures StartsWith(a + b, a)
  {
    assert (a + b)[..|a|] == a;
  }

  /** The four prefixes start with different letters, so at most one applies
      and the order in which they are tested decides nothing. */
  lemma {:induction false} PrefixesExclusive(message: string)
    ensures (if StartsWith(message, "ECHO") then 1 else 0) + (if StartsWith(message, "PING") then 1 else 0)
          + (if StartsWith(message, "GET") then 1 else 0) + (if StartsWith(message, "DATA") then 1 else 0) <= 1
  {
    if StartsWith(message, "ECHO") { assert message[0] == "ECHO"[0]; }
    if StartsWith(message, "PING") { assert message[0] == "PING"[0]; }
    if StartsWith(message, "GET") { assert message[0] == "GET"[0]; }
    if StartsWith(message, "DATA") { assert message[0] == "DATA"[0]; }
  }

  /** Each reply starts with the tag of the request kind and ends in a newline;
      an unrecognised message is echoed back whole behind `UNKNOWN: `. */
  lemma {:induction false} RespondTagged(message: string, number: nat)
    ensures var reply := Respond(message, number);
      |reply| > 0 && reply[|reply| - 1] == '\n'
      && (StartsWith(message, "ECHO") ==> StartsWith(reply, "ECHO_REPLY: "))
      && (StartsWith(message, "PING") ==> StartsWith(reply, "PONG: "))
      && (StartsWith(message, "GET") ==> StartsWith(reply, "RESPONSE: "))
      && (StartsWith(message, "DATA") ==> StartsWith(reply, "ACK: "))
      && ((!StartsWith(message, "ECHO") && !StartsWith(message, "PING") && !StartsWith(message, "GET")
           && !StartsWith(message, "DATA")) ==> reply == "UNKNOWN: " + message + "\n")
  {
    PrefixesExclusive(message);
    var reply := Respond(message, number);
    var tag, body := ReplyParts(message, number);
    StartsWithConcat(tag, body);
  }

  /** A reply is its tag followed by a body ending in a newline. */
  lemma {:induction false} ReplyParts(message: string, number: nat) returns (tag: string, body: string)
    ensures Respond(message, number) == tag + body && |body| > 0 && body[|body| - 1] == '\n'
    ensures tag == if StartsWith(message, "ECHO") then "ECHO_REPLY: "
                   else if StartsWith(message, "PING") then "PONG: "
                   else if StartsWith(message, "GET") then "RESPONSE: "
                   else if StartsWith(message, "DATA") then "ACK: "
                   else "UNKNOWN: "
    ensures tag == "UNKNOWN: " ==> body == message + "\n"
  {
    if StartsWith(message, "ECHO") {
      tag, body := "ECHO_REPLY: ", SliceFrom(message, 5) + "\n";
    } else if StartsWith(message, "PING") {
      tag, body := "PONG: ", SliceFrom(message, 5) + "\n";
    } else if StartsWith(message, "GET") {
      tag, body := "RESPONSE: ", NatToString(number) + "\n";
    } else if StartsWith(message, "DATA") {
      tag, body := "ACK: ", NatToString(|message|) + " bytes processed\n";
    } else {
      tag, body := "UNKNOWN: ", message + "\n";
    }
  }

  /** An echo request travels back unchanged behind the reply tag: the bytes
      of `ECHO <text>` and a newline produce the bytes of `ECHO_REPLY: <text>`
      and a newline, for any text without surrounding whitespace. */
  lemma {:induction false} EchoRoundTrip(text: string, number: nat)
    requires |text| > 0 ==> !IsSpace(text[0]) && !IsSpace(text[|text| - 1])
    ensures ProcessData(Encode("ECHO " + text + "\n"), number) == Encode("ECHO_REPLY: " + text + "\n")
  {
    var line := "ECHO " + text + "\n";
    DecodeEncode(line);
    var stripped := StripEchoLine(text);
    assert Respond(stripped, number) == "ECHO_REPLY: " + text + "\n" by {
      StartsWithConcat("ECHO", SliceFrom(stripped, 4));
      assert stripped == "ECHO" + SliceFrom(stripped, 4);
      assert SliceFrom(stripped, 5) == text;
    }
  }

  /** The strip of an echo line: the line without its newline, and without the
      separating blank when the text is empty. */
  lemma {:induction false} StripEchoLine(text: string) returns (stripped: string)
    requires |text| > 0 ==> !IsSpace(text[0]) && !IsSpace(text[|text| - 1])
    ensures stripped == Strip("ECHO " + text + "\n")
    ensures stripped == if |text| > 0 then "ECHO " + text else "ECHO"
  {
    var message := "ECHO " + text;
    var line := message + "\n";
    assert line[0] == 'E';
    TrimStartNoop(line);
    assert line[..|line| - 1] == message;
    TrimEndStep(line);
    if |text| > 0 {
      stripped := message;
      assert message[|message| - 1] == text[|text| - 1];
      TrimEndNoop(message);
    } else {
      stripped := "ECHO";
      assert message[..|message| - 1] == "ECHO";
      TrimEndStep(message);
      TrimEndNoop("ECHO");
    }
  }

  lemma {:induction false} TrimStartNoop(s: string)
    requires |s| > 0 && !IsSpace(s[0])
    ensures TrimStart(s) == s
  {
  }

  lemma {:induction false} TrimEndNoop(s: string)
    requires |s| > 0 && !IsSpace(s[|s| - 1])
    ensures TrimEnd(s) == s
  {
  }

  lemma {:induction false} TrimEndStep(s: string)
    requires |s| > 0 && IsSpace(s[|s| - 1])
    ensures TrimEnd(s) == TrimEnd(s[..|s| - 1])
  {
  }

  /** The error reply is given exactly to bytes that are not UTF-8: no
      request, whatever its text, is answered with it. */
  lemma {:induction false} InvalidUtf8(data: seq<byte>, number: nat)
    ensures ProcessData(data, number) == Encode(InvalidUtf8Reply) <==> Decode(data).None?
  {
    if Decode(data).Some? {
      var reply := Respond(Strip(Decode(data).value), number);
      RespondNotError(Strip(Decode(data).value), number);
      DecodeEncode(reply);
      DecodeEncode(InvalidUtf8Reply);
    }
  }

  /** No reply text is the error reply: their first two characters differ. */
  lemma {:induction false} RespondNotError(message: string, number: nat)
    ensures Respond(message, number) != InvalidUtf8Reply
  {
    var tag, body := ReplyParts(message, number);
    var reply := Respond(message, number);
    assert reply[0] == tag[0] && reply[1] == tag[1];
    assert tag[0] != 'E' || tag[1] != 'R';
    assert InvalidUtf8Reply[0] == 'E' && InvalidUtf8Reply[1] == 'R';
  }

  /** A lead byte 0xFF never begins UTF-8, so such input gets the error reply. */
  lemma {:induction false} LeadFFInvalid(data: seq<byte>, number: nat)
    requires |data| > 0 && data[0] == 0xFF
    ensures ProcessData(data, number) == Encode(InvalidUtf8Reply)
  {
    assert DecodeFirst(data).None?;
  }

  /** A `DATA` request is acknowledged with its stripped length in characters,
      which the acknowledgement lets the peer read back. */
  lemma {:induction false} DataAcknowledged(message: string, number: nat)
    requires StartsWith(message, "DATA")
    ensures var reply := Respond(message, number);
      reply == "ACK: " + NatToString(|message|) + " bytes processed\n"
      && ParseDigits(NatToString(|message|)) == |message|
  {
    PrefixesExclusive(message);
    ParseNatToString(|message|);
  }

  // ---------------------------------------------------------------------------
  // Ordering of the response queue
  // ---------------------------------------------------------------------------

  /** A message to send, with the number the responder would draw for a `GET`. */
  datatype Request = Request(data: seq<byte>, number: nat)

  /** Sends `requests` in order. */
  function SendAll(c: Connection, requests: seq<Request>, now: int): (r: Connection)
    ensures r.isConnected == c.isConnected
    decreases |requests|
  {
    if |requests| == 0 then c
    else SendAll(SendData(c, requests[0].data, now, requests[0].number).1, requests[1..], now)
  }

  /** The responses to `requests`, in order. */
  function Responses(requests: seq<Request>): (rs: seq<seq<byte>>)
    ensures |rs| == |requests|
    decreases |requests|
  {
    if |requests| == 0 then [] else [ProcessData(requests[0].data, requests[0].number)] + Responses(requests[1..])
  }

  /** Receives `k` responses, as long as there are any. */
  function ReceiveAll(c: Connection, k: nat): (r: (seq<seq<byte>>, Connection))
    decreases k
  {
    if k == 0 then ([], c)
    else match ReceiveData(c).0
      case None => ([], c)
      case Some(bs) =>
        var rest := ReceiveAll(ReceiveData(c).1, k - 1);
        ([bs] + rest.0, rest.1)
  }

  /** On a connected connection, every message sent is answered, and the
      answers queue up behind what was already queued, in sending order. */
  lemma {:induction false} SendAllQueues(c: Connection, requests: seq<Request>, now: int)
    requires c.isConnected
    ensures var r := SendAll(c, requests, now);
      r.receiveBuffer == c.receiveBuffer + Responses(requests)
      && r.messagesSent == c.messagesSent + |requests| && r.messagesReceived == c.messagesReceived + |requests|
    decreases |requests|
  {
    if |requests| > 0 {
      var q := requests[0];
      var response := ProcessData(q.data, q.number);
      var c1 := SendData(c, q.data, now, q.number).1;
      assert c1.isConnected && c1.receiveBuffer == c.receiveBuffer + [response];
      assert c1.messagesSent == c.messagesSent + 1 && c1.messagesReceived == c.messagesReceived + 1;
      var rest := Responses(requests[1..]);
      SendAllQueues(c1, requests[1..], now);
      assert SendAll(c, requests, now) == SendAll(c1, requests[1..], now);
      assert Responses(requests) == [response] + rest;
      ConcatAssoc(c.receiveBuffer, [response], rest);
    }
  }


  /** The queue is first in, first out: draining returns what it holds, oldest first. */
  lemma {:induction false} ReceiveAllFifo(c: Connection)
    ensures var r := ReceiveAll(c, |c.receiveBuffer|);
      r.0 == c.receiveBuffer && r.1.receiveBuffer == [] && ReceiveData(r.1).0.None?
    decreases |c.receiveBuffer|
  {
    if |c.receiveBuffer| > 0 {
      var c1 := ReceiveData(c).1;
      ReceiveAllFifo(c1);
      assert [c.receiveBuffer[0]] + c1.receiveBuffer == c.receiveBuffer;
    }
  }

  /** Sending a batch to an idle connection and then draining it yields the
      responses to the batch in sending order. */
  lemma {:induction false} SendThenReceiveInOrder(c: Connection, requests: seq<Request>, now: int)
    requires c.isConnected && c.receiveBuffer == []
    ensures ReceiveAll(SendAll(c, requests, now), |requests|).0 == Responses(requests)
  {
    var r := SendAll(c, requests, now);
    var rs := Responses(requests);
    SendAllQueues(c, requests, now);
    EmptyConcat(rs);
    ReceiveAllFifo(r);
  }



  // ---------------------------------------------------------------------------
  // The server
  // ---------------------------------------------------------------------------

  /** `MockTCPServer`: `order` lists the open connections' ids in the order the
      source's dict iterates them. */
  datatype Server = Server(
    port: int,
    connections: map<string, Connection>,
    order: seq<string>,
    isRunning: bool,
    counter: nat,
    totalConnections: nat,
    activeConnections: int,
    bytesTransferred: nat,
    messagesProcessed: nat)

  function NewServer(port: int): Server {
    Server(port, map[], [], false, 0, 0, 0, 0, 0)
  }

  function Start(s: Server): Server {
    s.(isRunning := true)
  }

  /** `stop`: closes and forgets every connection; the counters stay. */
  function Stop(s: Server): (r: Server)
    ensures !r.isRunning && |r.connections| == 0
    ensures r.activeConnections == s.activeConnections && r.totalConnections == s.totalConnections
  {
    s.(isRunning := false, connections := map[], order := [])
  }

  const Localhost: string := "127.0.0.1"

  /** `server_conn_{k}`. */
  function ServerConnId(k: nat): string {
    "server_conn_" + NatToString(k)
  }

  /** `accept_connection`: refused while stopped; otherwise numbers, opens and
      registers a new connection. */
  function Accept(s: Server, client: Endpoint, now: int): (r: (Option<string>, Server))
    ensures !s.isRunning <==> r.0.None?
    ensures r.0.None? ==> r.1 == s
    ensures r.0.Some? ==> r.0.value == ServerConnId(s.counter + 1) && r.1.counter == s.counter + 1
    ensures r.0.Some? ==> (r.1.totalConnections == s.totalConnections + 1
                           && r.1.activeConnections == s.activeConnections + 1)
    ensures r.0.Some? ==> (r.1.connections.Keys == s.connections.Keys + {r.0.value}
                           && r.1.connections[r.0.value].isConnected)
  {
    if !s.isRunning then (None, s)
    else
      var k := s.counter + 1;
      var id := ServerConnId(k);
      var conn := Connect(NewConnection(id, Endpoint(Localhost, s.port), client, now), now).1;
      (Some(id), s.(counter := k,
                    connections := s.connections[id := conn],
                    order := if id in s.connections then s.order else s.order + [id],
                    totalConnections := s.totalConnections + 1,
                    activeConnections := s.activeConnections + 1))
  }

  /** `process_client_data`: an unknown id fails; otherwise the connection's
      send decides, and only a success is counted. */
  function ProcessClientData(s: Server, id: string, data: seq<byte>, now: int, number: nat): (r: (bool, Server))
    ensures id !in s.connections ==> r == (false, s)
    ensures r.0 <==> id in s.connections && s.connections[id].isConnected
    ensures r.1.messagesProcessed == s.messagesProcessed + (if r.0 then 1 else 0)
  {
    if id !in s.connections then (false, s)
    else
      var sent := SendData(s.connections[id], data, now, number);
      var s1 := s.(connections := s.connections[id := sent.1]);
      if sent.0 then (true, s1.(bytesTransferred := s.bytesTransferred + |data|, messagesProcessed := s.messagesProcessed + 1))
      else (false, s1)
  }

  /** `get_response`: the connection's oldest response, if the id is known. */
  function GetResponse(s: Server, id: string): (r: (Option<seq<byte>>, Server))
    ensures id !in s.connections ==> r == (None, s)
    ensures id in s.connections ==> r.0 == ReceiveData(s.connections[id]).0
    ensures r.1.connections.Keys == s.connections.Keys && r.1.order == s.order
  {
    if id !in s.connections then (None, s)
    else
      var (bs, conn) := ReceiveData(s.connections[id]);
      (bs, s.(connections := s.connections[id := conn]))
  }

  /** `close_connection`: forgets a known connection and counts it inactive;
      an unknown id changes nothing. */
  function CloseConnection(s: Server, id: string): (r: Server)
    ensures id !in s.connections ==> r == s
    ensures id in s.connections ==> (r.connections == s.connections - {id}
                                     && r.activeConnections == s.activeConnections - 1)
    ensures id !in r.connections
  {
    if id !in s.connections then s
    else s.(connections := s.connections - {id},
            order := Filter(s.order, (x: string) => x != id),
            activeConnections := s.activeConnections - 1)
  }

  datatype ServerStats = ServerStats(
    totalConnections: nat,
    activeConnections: int,
    bytesTransferred: nat,
    messagesProcessed: nat,
    bytesSent: nat,
    bytesReceived: nat,
    currentConnections: nat)

  function SumSent(conns: map<string, Connection>, ids: seq<string>): nat {
    if |ids| == 0 then 0
    else (if ids[0] in conns then conns[ids[0]].bytesSent else 0) + SumSent(conns, ids[1..])
  }

  function SumReceived(conns: map<string, Connection>, ids: seq<string>): nat {
    if |ids| == 0 then 0
    else (if ids[0] in conns then conns[ids[0]].bytesReceived else 0) + SumReceived(conns, ids[1..])
  }

  /** `get_stats`: the counters, with `bytes_transferred` replaced by the bytes
      sent and received over the connections still open. */
  function GetStats(s: Server): (st: ServerStats)
    ensures st.bytesTransferred == st.bytesSent + st.bytesReceived
    ensures st.currentConnections == |s.connections|
    ensures st.totalConnections == s.totalConnections && st.activeConnections == s.activeConnections
    ensures st.bytesSent == SumSent(s.connections, s.order)
    ensures st.bytesReceived == SumReceived(s.connections, s.order)
    ensures st.messagesProcessed == s.messagesProcessed
  {
    var sent, received := SumSent(s.connections, s.order), SumReceived(s.connections, s.order);
    ServerStats(s.totalConnections, s.activeConnections, sent + received, s.messagesProcessed,
                sent, received, |s.connections|)
  }

  // ---------------------------------------------------------------------------
  // Server invariant
  // ---------------------------------------------------------------------------

  /** What accept, process, respond and close maintain: the ids in `order` are
      exactly the open connections, without repeats; every open connection
      is connected and carries its own id; every id the server issued is
      numbered at most `counter`; and the active count is the number of open
      connections. */
  ghost predicate ServerValid(s: Server) {
    OrderMatches(s.connections, s.order)
    && AllOpen(s.connections)
    && NumberedUpTo(s.connections, s.counter)
    && s.totalConnections == s.counter
    && s.activeConnections == |s.connections|
  }

  ghost predicate OrderMatches(conns: map<string, Connection>, order: seq<string>) {
    Distinct(order) && forall id :: id in conns <==> id in order
  }

  ghost predicate AllOpen(conns: map<string, Connection>) {
    forall id :: id in conns ==> conns[id].isConnected && conns[id].id == id
  }

  ghost predicate NumberedUpTo(conns: map<string, Connection>, counter: nat) {
    forall k: nat :: ServerConnId(k) in conns ==> 1 <= k <= counter
  }

  lemma {:induction false} NewServerValid(port: int)
    ensures ServerValid(Start(NewServer(port)))
  {
  }

  lemma {:induction false} ServerConnIdInjective(a: nat, b: nat)
    requires ServerConnId(a) == ServerConnId(b)
    ensures a == b
  {
    var p := "server_conn_";
    assert NatToString(a) == ServerConnId(a)[|p|..];
    assert NatToString(b) == ServerConnId(b)[|p|..];
    NatToStringInjective(a, b);
  }

  /** An accepted connection gets an id no open connection has, so it never
      replaces one; the invariant is kept. */
  lemma {:induction false} AcceptKeepsValid(s: Server, client: Endpoint, now: int)
    requires ServerValid(s) && s.isRunning
    ensures var r := Accept(s, client, now);
      r.0.Some? && r.0.value !in s.connections && ServerValid(r.1)
  {
    var id := ServerConnId(s.counter + 1);
    AcceptFresh(s);
    var r := Accept(s, client, now).1;
    RegisterKeepsValid(s, r, id);
  }

  /** Registering a fresh, connected connection under the next number. */
  lemma {:induction false} RegisterKeepsValid(s: Server, r: Server, id: string)
    requires ServerValid(s) && id == ServerConnId(s.counter + 1) && id !in s.connections
    requires r.order == s.order + [id] && id in r.connections
    requires r.connections == s.connections[id := r.connections[id]]
    requires r.connections[id].isConnected && r.connections[id].id == id
    requires r.counter == s.counter + 1 && r.totalConnections == s.totalConnections + 1
    requires r.activeConnections == s.activeConnections + 1
    ensures ServerValid(r)
  {
    assert OrderMatches(r.connections, r.order) by {
      DistinctAppend(s.order, id);
    }
    assert NumberedUpTo(r.connections, r.counter) by {
      forall k: nat | ServerConnId(k) in r.connections ensures 1 <= k <= r.counter {
        if ServerConnId(k) == id {
          ServerConnIdInjective(k, s.counter + 1);
        }
      }
    }
    assert |r.connections| == |s.connections| + 1 by {
      assert r.connections.Keys == s.connections.Keys + {id};
      assert |r.connections.Keys| == |s.connections.Keys| + 1;
    }
  }

  /** The next id has a number above every issued one, so no open connection has it. */
  lemma {:induction false} AcceptFresh(s: Server)
    requires forall k: nat :: ServerConnId(k) in s.connections ==> 1 <= k <= s.counter
    ensures ServerConnId(s.counter + 1) !in s.connections
  {
  }

  lemma {:induction false} DistinctAppend<T>(xs: seq<T>, x: T)
    requires Distinct(xs) && x !in xs
    ensures Distinct(xs + [x])
  {
  }

  /** Every open connection is connected, so processing data for a known id
      always succeeds. */
  lemma {:induction false} ProcessKeepsValid(s: Server, id: string, data: seq<byte>, now: int, number: nat)
    requires ServerValid(s)
    ensures var r := ProcessClientData(s, id, data, now, number);
      (r.0 <==> id in s.connections) && ServerValid(r.1)
  {
    if id in s.connections {
      var (ok, c) := SendData(s.connections[id], data, now, number);
      var r := ProcessClientData(s, id, data, now, number).1;
      assert r.connections == s.connections[id := c];
      ReplaceKeepsValid(s, r, id, c);
    }
  }

  lemma {:induction false} GetResponseKeepsValid(s: Server, id: string)
    requires ServerValid(s)
    ensures ServerValid(GetResponse(s, id).1)
  {
    if id in s.connections {
      var c := ReceiveData(s.connections[id]).1;
      ReplaceKeepsValid(s, GetResponse(s, id).1, id, c);
    }
  }

  /** Replacing an open connection by an updated copy that is still connected. */
  lemma {:induction false} ReplaceKeepsValid(s: Server, r: Server, id: string, c: Connection)
    requires ServerValid(s) && id in s.connections && c.isConnected && c.id == id
    requires r.connections == s.connections[id := c] && r.order == s.order
    requires r.counter == s.counter && r.totalConnections == s.totalConnections
    requires r.activeConnections == s.activeConnections
    ensures ServerValid(r)
  {
    assert r.connections.Keys == s.connections.Keys;
    assert |r.connections| == |s.connections| by {
      assert |r.connections.Keys| == |s.connections.Keys|;
    }
  }

  /** Closing a known connection lowers the active count by one; closing it
      again is a no-op. */
  lemma {:induction false} CloseKeepsValid(s: Server, id: string)
    requires ServerValid(s)
    ensures var r := CloseConnection(s, id);
      ServerValid(r) && CloseConnection(r, id) == r
      && r.activeConnections == s.activeConnections - (if id in s.connections then 1 else 0)
  {
    if id in s.connections {
      var r := CloseConnection(s, id);
      var p := (x: string) => x != id;
      FilterDistinct(s.order, p);
      assert r.connections.Keys == s.connections.Keys - {id};
      assert |r.connections| == |s.connections| - 1 by {
        assert |r.connections.Keys| == |s.connections.Keys| - 1;
      }
    }
  }

  /** Stopping forgets the open connections but keeps the active count, so the
      invariant survives a stop only on a server with no open connection. */
  lemma {:induction false} StopKeepsActiveCount(s: Server)
    requires ServerValid(s)
    ensures ServerValid(Stop(s)) <==> |s.connections| == 0
  {
  }

  // ---------------------------------------------------------------------------
  // Statistics
  // ---------------------------------------------------------------------------

  /** Changing one connection of a duplicate-free id list changes the sums by
      exactly that connection's change. */
  lemma {:induction false} SumPointUpdate(conns: map<string, Connection>, ids: seq<string>, id: string, c: Connection)
    requires Distinct(ids) && id in conns && id in ids
    ensures SumSent(conns[id := c], ids) == SumSent(conns, ids) - conns[id].bytesSent + c.bytesSent
    ensures SumReceived(conns[id := c], ids) == SumReceived(conns, ids) - conns[id].bytesReceived + c.bytesReceived
    decreases |ids|
  {
    var rest := ids[1..];
    assert Distinct(rest) by {
      forall i, j | 0 <= i < j < |rest| ensures rest[i] != rest[j] {
        assert rest[i] == ids[i + 1] && rest[j] == ids[j + 1];
      }
    }
    if ids[0] == id {
      assert id !in rest by {
        forall j | 0 <= j < |rest| ensures rest[j] != id {
          assert rest[j] == ids[j + 1];
        }
      }
      SumUnchanged(conns, rest, id, c);
    } else {
      assert id in rest by {
        var i :| 0 <= i < |ids| && ids[i] == id;
        assert rest[i - 1] == id;
      }
      SumPointUpdate(conns, rest, id, c);
    }
  }

  lemma {:induction false} SumUnchanged(conns: map<string, Connection>, ids: seq<string>, id: string, c: Connection)
    requires id !in ids
    ensures SumSent(conns[id := c], ids) == SumSent(conns, ids)
    ensures SumReceived(conns[id := c], ids) == SumReceived(conns, ids)
    decreases |ids|
  {
    if |ids| > 0 {
      assert ids[0] != id;
      SumUnchanged(conns, ids[1..], id, c);
    }
  }

  /** Reported traffic follows processing: one processed message adds its
      length to the bytes sent and its response's length to the bytes
      received, and so both to the bytes transferred. */
  lemma {:induction false} ProcessStats(s: Server, id: string, data: seq<byte>, now: int, number: nat)
    requires ServerValid(s) && id in s.connections
    ensures var before := GetStats(s);
      var after := GetStats(ProcessClientData(s, id, data, now, number).1);
      after.bytesSent == before.bytesSent + |data|
      && after.bytesReceived == before.bytesReceived + |ProcessData(data, number)|
      && after.bytesTransferred == before.bytesTransferred + |data| + |ProcessData(data, number)|
      && after.messagesProcessed == before.messagesProcessed + 1
  {
    var conn := SendData(s.connections[id], data, now, number).1;
    SumPointUpdate(s.connections, s.order, id, conn);
  }

  // ---------------------------------------------------------------------------
  // The client
  // ---------------------------------------------------------------------------

  /** `MockTCPClient`. */
  datatype Client = Client(connections: map<string, Connection>, counter: nat)

  function ClientConnId(k: nat): string {
    "client_conn_" + NatToString(k)
  }

  /** `connect`: numbers and opens a new connection from the random local
      `port`. The connection's own connect always succeeds, so the source's
      failure branch is unreachable and an id is always returned. */
  function ClientConnect(cl: Client, host: string, serverPort: int, port: int, now: int): (r: (Option<string>, Client))
    ensures r.0 == Some(ClientConnId(cl.counter + 1)) && r.1.counter == cl.counter + 1
    ensures r.0.value in r.1.connections && r.1.connections[r.0.value].isConnected
  {
    var k := cl.counter + 1;
    var id := ClientConnId(k);
    var conn := Connect(NewConnection(id, Endpoint(Localhost, port), Endpoint(host, serverPort), now), now).1;
    (Some(id), Client(cl.connections[id := conn], k))
  }

  function ClientSend(cl: Client, id: string, data: seq<byte>, now: int, number: nat): (r: (bool, Client))
    ensures r.0 <==> id in cl.connections && cl.connections[id].isConnected
    ensures r.1.connections.Keys == cl.connections.Keys
  {
    if id !in cl.connections then (false, cl)
    else
      var (ok, conn) := SendData(cl.connections[id], data, now, number);
      (ok, cl.(connections := cl.connections[id := conn]))
  }

  function ClientReceive(cl: Client, id: string): (r: (Option<seq<byte>>, Client))
    ensures id !in cl.connections ==> r == (None, cl)
    ensures id in cl.connections ==> r.0 == ReceiveData(cl.connections[id]).0
  {
    if id !in cl.connections then (None, cl)
    else
      var (bs, conn) := ReceiveData(cl.connections[id]);
      (bs, cl.(connections := cl.connections[id := conn]))
  }

  function ClientClose(cl: Client, id: string): (r: Client)
    ensures r.connections == cl.connections - {id} && r.counter == cl.counter
  {
    if id !in cl.connections then cl else cl.(connections := cl.connections - {id})
  }

  /** A request the client sends right after connecting is answered, and the
      answer is the next thing it receives. */
  lemma {:induction false} ClientRequestReply(cl: Client, host: string, serverPort: int, port: int, now: int,
                           data: seq<byte>, number: nat)
    ensures var (id, c1) := ClientConnect(cl, host, serverPort, port, now);
      var (ok, c2) := ClientSend(c1, id.value, data, now, number);
      ok && ClientReceive(c2, id.value).0 == Some(ProcessData(data, number))
  {
  }
}
