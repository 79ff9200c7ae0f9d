/** `MockProtocol` of the PCB benchmark: newline framing of the bytes a
    connection receives, the PING / ECHO / DATA request handling, and the
    counter arithmetic of sending. The protocol owns its control block, as the
    source's protocol object holds the same `pcb` the manager stores. */
module PcbProtocol {
  import opened Common
  import opened Utf8
  import opened PcbState

  /** One `message_queue` entry: the decoded line, when it arrived, its length. */
  datatype Received = Received(message: string, timestamp: int, size: nat)

  datatype Protocol = Protocol(
    pcb: Pcb,
    dataBuffer: seq<byte>,
    messageQueue: seq<Received>,
    isConnected: bool)

  function NewProtocol(pcb: Pcb): Protocol {
    Protocol(pcb, [], [], false)
  }

  // ---------------------------------------------------------------------------
  // Framing
  // ---------------------------------------------------------------------------

  /** The byte stream that a list of complete frames occupies: each line
      followed by its newline. */
  function Frames(lines: seq<seq<byte>>): seq<byte> {
    if |lines| == 0 then [] else lines[0] + [NEWLINE] + Frames(lines[1..])
  }

  predicate NoNewline(bs: seq<byte>) {
    NEWLINE !in bs
  }

  predicate AllNoNewline(lines: seq<seq<byte>>) {
    forall i :: 0 <= i < |lines| ==> NoNewline(lines[i])
  }

  function IndexOfNewline(bs: seq<byte>): (k: nat)
    requires NEWLINE in bs
    ensures k < |bs| && bs[k] == NEWLINE && NoNewline(bs[..k])
  {
    if bs[0] == NEWLINE then 0 else 1 + IndexOfNewline(bs[1..])
  }

  /** The loop `while b'\n' in buf: line, buf = buf.split(b'\n', 1)`: the complete
      lines in order and what stays buffered. Neither a line nor the rest holds
      a newline; `SplitFramesConcat` shows nothing is lost or reordered. */
  function SplitFrames(buf: seq<byte>): (r: (seq<seq<byte>>, seq<byte>))
    ensures AllNoNewline(r.0) && NoNewline(r.1)
    decreases |buf|
  {
    if NEWLINE !in buf then ([], buf)
    else
      var k := IndexOfNewline(buf);
      var rest := SplitFrames(buf[k + 1..]);
      ([buf[..k]] + rest.0, rest.1)
  }

  /** The lines with their newlines, followed by the rest, are exactly the input. */
  lemma {:induction false} SplitFramesConcat(buf: seq<byte>)
    ensures Frames(SplitFrames(buf).0) + SplitFrames(buf).1 == buf
    decreases |buf|
  {
    if NEWLINE in buf {
      var k := IndexOfNewline(buf);
      var tail := buf[k + 1..];
      SplitFramesConcat(tail);
      var rest := SplitFrames(tail);
      var lines := [buf[..k]] + rest.0;
      assert SplitFrames(buf) == (lines, rest.1);
      assert Frames(lines) == buf[..k] + [NEWLINE] + Frames(rest.0) by {
        assert lines[0] == buf[..k] && lines[1..] == rest.0;
      }
      assert buf == buf[..k] + [NEWLINE] + tail;
    }
  }

  lemma FramesAppend(a: seq<seq<byte>>, b: seq<seq<byte>>)
    ensures Frames(a + b) == Frames(a) + Frames(b)
    decreases |a|
  {
    if |a| == 0 {
      assert a + b == b;
    } else {
      assert (a + b)[1..] == a[1..] + b;
      FramesAppend(a[1..], b);
    }
  }

  /** Framing is unambiguous: any split of `buf` into newline-free lines and a
      newline-free rest is the one `SplitFrames` computes. */
  lemma {:induction false} SplitFramesUnique(buf: seq<byte>, lines: seq<seq<byte>>, rest: seq<byte>)
    requires Frames(lines) + rest == buf
    requires AllNoNewline(lines) && NoNewline(rest)
    ensures SplitFrames(buf) == (lines, rest)
    decreases |lines|
  {
    if |lines| == 0 {
      assert buf == rest;
    } else {
      var l := lines[0];
      var tail := Frames(lines[1..]) + rest;
      assert buf == l + [NEWLINE] + tail;
      assert buf[|l|] == NEWLINE;
      assert buf[..|l|] == l;
      assert NEWLINE in buf;
      var k := IndexOfNewline(buf);
      assert k == |l|;
      assert buf[k + 1..] == tail;
      SplitFramesUnique(tail, lines[1..], rest);
      assert [l] + lines[1..] == lines;
    }
  }

  /** Reassembly: delivering `a` and then `b` dispatches the same lines, in the
      same order, and leaves the same partial frame buffered, as delivering
      `a + b` at once. */
  lemma SplitFramesReassembly(buf: seq<byte>, a: seq<byte>, b: seq<byte>)
    ensures var first := SplitFrames(buf + a);
      var second := SplitFrames(first.1 + b);
      SplitFrames(buf + (a + b)) == (first.0 + second.0, second.1)
  {
    var first := SplitFrames(buf + a);
    var second := SplitFrames(first.1 + b);
    SplitFramesConcat(buf + a);
    SplitFramesConcat(first.1 + b);
    ReassembleBytes(first.0, first.1, second.0, second.1, buf, a, b);
    AllNoNewlineAppend(first.0, second.0);
    SplitFramesUnique(buf + (a + b), first.0 + second.0, second.1);
  }

  /** The byte-level bookkeeping of reassembly, free of the framing function. */
  lemma ReassembleBytes(lines1: seq<seq<byte>>, rest1: seq<byte>, lines2: seq<seq<byte>>, rest2: seq<byte>,
                        buf: seq<byte>, a: seq<byte>, b: seq<byte>)
    requires Frames(lines1) + rest1 == buf + a
    requires Frames(lines2) + rest2 == rest1 + b
    ensures Frames(lines1 + lines2) + rest2 == buf + (a + b)
  {
    FramesAppend(lines1, lines2);
    var f1, f2 := Frames(lines1), Frames(lines2);
    calc {
      Frames(lines1 + lines2) + rest2;
      (f1 + f2) + rest2;
      { assert (f1 + f2) + rest2 == f1 + (f2 + rest2); }
      f1 + (rest1 + b);
      { assert f1 + (rest1 + b) == (f1 + rest1) + b; }
      (buf + a) + b;
      buf + (a + b);
    }
  }

  lemma AllNoNewlineAppend(a: seq<seq<byte>>, b: seq<seq<byte>>)
    requires AllNoNewline(a) && AllNoNewline(b)
    ensures AllNoNewline(a + b)
  {
    forall i | 0 <= i < |a + b|
      ensures NoNewline((a + b)[i])
    {
      if i < |a| {
        assert (a + b)[i] == a[i];
      } else {
        assert (a + b)[i] == b[i - |a|];
      }
    }
  }

  // ---------------------------------------------------------------------------
  // Sending and receiving
  // ---------------------------------------------------------------------------

  /** `send_data`: only a connected protocol whose record is `ESTABLISHED` sends;
      a send counts the bytes, one packet, advances the sequence number by the
      byte count and stamps the activity time. A refused send changes nothing. */
  function SendData(pr: Protocol, data: seq<byte>, now: int): (r: (bool, Protocol))
    ensures r.0 <==> pr.isConnected && pr.pcb.state == Established
    ensures !r.0 ==> r.1 == pr
    ensures r.0 ==> r.1 == pr.(pcb := pr.pcb.(
      bytesSent := pr.pcb.bytesSent + |data|,
      packetsSent := pr.pcb.packetsSent + 1,
      sequenceNumber := pr.pcb.sequenceNumber + |data|,
      lastActivity := now))
  {
    if !pr.isConnected || !CanSendData(pr.pcb) then (false, pr)
    else
      var p := pr.pcb;
      (true, pr.(pcb := p.(bytesSent := p.bytesSent + |data|, packetsSent := p.packetsSent + 1,
                           sequenceNumber := p.sequenceNumber + |data|, lastActivity := now)))
  }

  /** The reply `message_received` composes for a message, if any: prefixes are
      tested in the order PING, ECHO, DATA and `message[5:]` is the text after
      the first five characters. */
  function Reply(message: string): Option<string> {
    if StartsWith(message, "PING") then Some("PONG " + SliceFrom(message, 5) + "\n")
    else if StartsWith(message, "ECHO") then Some("ECHO_REPLY " + SliceFrom(message, 5) + "\n")
    else if StartsWith(message, "DATA") then Some("ACK " + NatToString(|message|) + "\n")
    else None
  }

  /** `message_received`: always queues the message, then sends the reply, if any. */
  function MessageReceived(pr: Protocol, message: string, now: int): (r: Protocol)
    ensures r.messageQueue == pr.messageQueue + [Received(message, now, |message|)]
    ensures r.isConnected == pr.isConnected && r.dataBuffer == pr.dataBuffer
    ensures r.pcb.state == pr.pcb.state && r.pcb.connectionId == pr.pcb.connectionId
    ensures r.pcb.bytesReceived == pr.pcb.bytesReceived && r.pcb.packetsReceived == pr.pcb.packetsReceived
    ensures r.pcb.bytesSent >= pr.pcb.bytesSent && r.pcb.packetsSent >= pr.pcb.packetsSent
    ensures Reply(message).None? ==> r == pr.(messageQueue := pr.messageQueue + [Received(message, now, |message|)])
    ensures Reply(message).Some? ==>
      r == SendData(pr.(messageQueue := pr.messageQueue + [Received(message, now, |message|)]),
                    Encode(Reply(message).value), now).1
  {
    var queued := pr.(messageQueue := pr.messageQueue + [Received(message, now, |message|)]);
    match Reply(message)
    case None => queued
    case Some(response) => SendData(queued, Encode(response), now).1
  }

  /** What `message_received` puts on the wire: a connected `ESTABLISHED`
      protocol sends the encoded reply as one packet and advances its sequence
      number by its length; a message without a reply, or a protocol that
      cannot send, leaves the outbound side unchanged. */
  lemma {:induction false} MessageReceivedSends(pr: Protocol, message: string, now: int)
    ensures var r := MessageReceived(pr, message, now);
      var sends := Reply(message).Some? && pr.isConnected && pr.pcb.state == Established;
      var n := if sends then |Encode(Reply(message).value)| else 0;
      && r.pcb.bytesSent == pr.pcb.bytesSent + n
      && r.pcb.sequenceNumber == pr.pcb.sequenceNumber + n
      && r.pcb.packetsSent == pr.pcb.packetsSent + (if sends then 1 else 0)
  {
  }

  /** The queue entries that dispatching `lines` at time `now` appends: each
      line decoded with `errors='ignore'`, in order. */
  function Queued(lines: seq<seq<byte>>, now: int): (q: seq<Received>)
    ensures |q| == |lines|
  {
    if |lines| == 0 then []
    else
      var m := DecodeIgnore(lines[0]);
      [Received(m, now, |m|)] + Queued(lines[1..], now)
  }

  /** Dispatches complete lines in order, each decoded with `errors='ignore'`. */
  function DispatchLines(pr: Protocol, lines: seq<seq<byte>>, now: int): (r: Protocol)
    ensures r.messageQueue == pr.messageQueue + Queued(lines, now)
    ensures r.isConnected == pr.isConnected && r.dataBuffer == pr.dataBuffer
    ensures r.pcb.state == pr.pcb.state && r.pcb.connectionId == pr.pcb.connectionId
    ensures r.pcb.bytesReceived == pr.pcb.bytesReceived && r.pcb.packetsReceived == pr.pcb.packetsReceived
    ensures r.pcb.bytesSent >= pr.pcb.bytesSent && r.pcb.packetsSent >= pr.pcb.packetsSent
    decreases |lines|
  {
    if |lines| == 0 then pr
    else
      var message := DecodeIgnore(lines[0]);
      var next := MessageReceived(pr, message, now);
      assert Queued(lines, now) == [Received(message, now, |message|)] + Queued(lines[1..], now);
      assert next.messageQueue + Queued(lines[1..], now) == pr.messageQueue + Queued(lines, now);
      DispatchLines(next, lines[1..], now)
  }

  lemma {:induction false} DispatchLinesAppend(pr: Protocol, a: seq<seq<byte>>, b: seq<seq<byte>>, now: int)
    ensures DispatchLines(pr, a + b, now) == DispatchLines(DispatchLines(pr, a, now), b, now)
    decreases |a|
  {
    if |a| == 0 {
      assert a + b == b;
    } else {
      assert (a + b)[1..] == a[1..] + b;
      DispatchLinesAppend(MessageReceived(pr, DecodeIgnore(a[0]), now), a[1..], b, now);
    }
  }

  /** `data_received`: ignored unless connected; otherwise counts the bytes and
      one packet, appends to the buffer and dispatches every complete line. */
  function DataReceived(pr: Protocol, data: seq<byte>, now: int): (r: Protocol)
    ensures !pr.isConnected ==> r == pr
    ensures pr.isConnected ==>
      && r.pcb.bytesReceived == pr.pcb.bytesReceived + |data|
      && r.pcb.packetsReceived == pr.pcb.packetsReceived + 1
      && NoNewline(r.dataBuffer)
      && var lines := SplitFrames(pr.dataBuffer + data).0;
         r.messageQueue == pr.messageQueue + Queued(lines, now)
         && Frames(lines) + r.dataBuffer == pr.dataBuffer + data
  {
    if !pr.isConnected then pr
    else
      var p := pr.pcb;
      var split := SplitFrames(pr.dataBuffer + data);
      SplitFramesConcat(pr.dataBuffer + data);
      var counted := WithInbound(pr.(pcb := p.(lastActivity := now)),
                                 p.bytesReceived + |data|, p.packetsReceived + 1, split.1);
      DispatchLines(counted, split.0, now)
  }

  /** Receiving never changes the state, the connection flag or the id, and
      the replies it sends only add to the outbound counters. */
  lemma DataReceivedKeeps(pr: Protocol, data: seq<byte>, now: int)
    ensures var r := DataReceived(pr, data, now);
      && r.isConnected == pr.isConnected
      && r.pcb.state == pr.pcb.state && r.pcb.connectionId == pr.pcb.connectionId
      && r.pcb.bytesSent >= pr.pcb.bytesSent && r.pcb.packetsSent >= pr.pcb.packetsSent
  {
  }

  /** `connection_made`: requests `ESTABLISHED` (refused when already there),
      marks the protocol connected and stamps the activity time. */
  function ConnectionMade(pr: Protocol, now: int): Protocol {
    var t := TransitionState(pr.pcb, Established, now);
    pr.(pcb := t.1.(lastActivity := now), isConnected := true)
  }

  /** `connection_lost`: requests `CLOSED` through the table and disconnects. */
  function ConnectionLost(pr: Protocol, now: int): Protocol {
    pr.(pcb := TransitionState(pr.pcb, Closed, now).1, isConnected := false)
  }

  // ---------------------------------------------------------------------------
  // Properties
  // ---------------------------------------------------------------------------

  /** The reply for each recognised request, and no reply otherwise. */
  lemma ReplyCases(message: string)
    ensures StartsWith(message, "PING") ==> Reply(message) == Some("PONG " + SliceFrom(message, 5) + "\n")
    ensures !StartsWith(message, "PING") && StartsWith(message, "ECHO") ==>
      Reply(message) == Some("ECHO_REPLY " + SliceFrom(message, 5) + "\n")
    ensures !StartsWith(message, "PING") && !StartsWith(message, "ECHO") && StartsWith(message, "DATA") ==>
      Reply(message) == Some("ACK " + NatToString(|message|) + "\n")
    ensures Reply(message).None? <==>
      !StartsWith(message, "PING") && !StartsWith(message, "ECHO") && !StartsWith(message, "DATA")
  {
  }

  /** Replaces what only the receiving side touches: the inbound counters and the buffer. */
  function WithInbound(pr: Protocol, received: nat, packets: nat, buffer: seq<byte>): Protocol {
    pr.(pcb := pr.pcb.(bytesReceived := received, packetsReceived := packets), dataBuffer := buffer)
  }

  /** Dispatching lines neither reads nor writes the inbound counters or the buffer. */
  lemma {:induction false} DispatchIgnoresInbound(pr: Protocol, lines: seq<seq<byte>>, now: int,
                                                  received: nat, packets: nat, buffer: seq<byte>)
    ensures DispatchLines(WithInbound(pr, received, packets, buffer), lines, now)
         == WithInbound(DispatchLines(pr, lines, now), received, packets, buffer)
    decreases |lines|
  {
    if |lines| > 0 {
      var next := MessageReceived(pr, DecodeIgnore(lines[0]), now);
      assert MessageReceived(WithInbound(pr, received, packets, buffer), DecodeIgnore(lines[0]), now)
          == WithInbound(next, received, packets, buffer);
      DispatchIgnoresInbound(next, lines[1..], now, received, packets, buffer);
    }
  }

  /** Dispatch stamps activity with `now` or not at all. */
  lemma {:induction false} DispatchKeepsNow(pr: Protocol, lines: seq<seq<byte>>, now: int)
    requires pr.pcb.lastActivity == now
    ensures DispatchLines(pr, lines, now).pcb.lastActivity == now
    decreases |lines|
  {
    if |lines| > 0 {
      DispatchKeepsNow(MessageReceived(pr, DecodeIgnore(lines[0]), now), lines[1..], now);
    }
  }

  /** A connected delivery is: stamp the activity time, dispatch the complete
      lines, then set the inbound counters and the buffer. */
  lemma DataReceivedUnfold(pr: Protocol, data: seq<byte>, now: int)
    requires pr.isConnected
    ensures var split := SplitFrames(pr.dataBuffer + data);
      DataReceived(pr, data, now)
        == WithInbound(DispatchLines(pr.(pcb := pr.pcb.(lastActivity := now)), split.0, now),
                       pr.pcb.bytesReceived + |data|, pr.pcb.packetsReceived + 1, split.1)
  {
    var p := pr.pcb;
    var split := SplitFrames(pr.dataBuffer + data);
    var stamped := pr.(pcb := p.(lastActivity := now));
    var r, k := p.bytesReceived + |data|, p.packetsReceived + 1;
    var lines := split.0;
    assert DataReceived(pr, data, now) == DispatchLines(WithInbound(stamped, r, k, split.1), lines, now) by {
      DataReceivedConnected(pr, data, now);
    }
    DispatchIgnoresInbound(stamped, lines, now, r, k, split.1);
  }

  lemma DataReceivedConnected(pr: Protocol, data: seq<byte>, now: int)
    requires pr.isConnected
    ensures var p := pr.pcb;
      var split := SplitFrames(pr.dataBuffer + data);
      DataReceived(pr, data, now)
        == DispatchLines(WithInbound(pr.(pcb := p.(lastActivity := now)),
                                     p.bytesReceived + |data|, p.packetsReceived + 1, split.1), split.0, now)
  {
  }

  /** Splitting a delivery in two changes nothing but the packet count: the same
      messages are queued in the same order, the same replies are sent and the
      same partial frame stays buffered. */
  lemma DataReceivedReassembly(pr: Protocol, a: seq<byte>, b: seq<byte>, now: int)
    requires pr.isConnected
    ensures var once := DataReceived(pr, a + b, now);
      DataReceived(DataReceived(pr, a, now), b, now)
        == once.(pcb := once.pcb.(packetsReceived := once.pcb.packetsReceived + 1))
  {
    var p := pr.pcb;
    var first := SplitFrames(pr.dataBuffer + a);
    var second := SplitFrames(first.1 + b);
    var start := pr.(pcb := p.(lastActivity := now));
    var x := DispatchLines(start, first.0, now);
    var y := DispatchLines(x, second.0, now);
    var r1, k1 := p.bytesReceived + |a|, p.packetsReceived + 1;
    var mid := DataReceived(pr, a, now);
    assert mid == WithInbound(x, r1, k1, first.1) by {
      DataReceivedUnfold(pr, a, now);
    }
    assert DataReceived(mid, b, now) == WithInbound(y, r1 + |b|, k1 + 1, second.1) by {
      DispatchKeepsNow(start, first.0, now);
      DataReceivedAfterDispatch(x, r1, k1, first.1, b, now);
    }
    var once := DataReceived(pr, a + b, now);
    assert once == WithInbound(y, r1 + |b|, p.packetsReceived + 1, second.1) by {
      DeliveredOnce(pr, a, b, now);
    }
    WithInboundBump(y, r1 + |b|, p.packetsReceived + 1, second.1);
  }

  lemma WithInboundBump(x: Protocol, received: nat, packets: nat, buffer: seq<byte>)
    ensures var w := WithInbound(x, received, packets, buffer);
      w.(pcb := w.pcb.(packetsReceived := w.pcb.packetsReceived + 1)) == WithInbound(x, received, packets + 1, buffer)
  {
  }

  /** A delivery to a protocol whose activity time is already `now`. */
  lemma DataReceivedAfterDispatch(x: Protocol, received: nat, packets: nat, buffer: seq<byte>,
                                  b: seq<byte>, now: int)
    requires x.isConnected && x.pcb.lastActivity == now
    ensures var split := SplitFrames(buffer + b);
      DataReceived(WithInbound(x, received, packets, buffer), b, now)
        == WithInbound(DispatchLines(x, split.0, now), received + |b|, packets + 1, split.1)
  {
    var mid := WithInbound(x, received, packets, buffer);
    var split := SplitFrames(buffer + b);
    DataReceivedUnfold(mid, b, now);
    assert mid.(pcb := mid.pcb.(lastActivity := now)) == mid;
    DispatchIgnoresInbound(x, split.0, now, received, packets, buffer);
  }

  /** One delivery of `a + b` in terms of dispatching the two batches of lines. */
  lemma DeliveredOnce(pr: Protocol, a: seq<byte>, b: seq<byte>, now: int)
    requires pr.isConnected
    ensures var p := pr.pcb;
      var first := SplitFrames(pr.dataBuffer + a);
      var second := SplitFrames(first.1 + b);
      var start := pr.(pcb := p.(lastActivity := now));
      DataReceived(pr, a + b, now)
        == WithInbound(DispatchLines(DispatchLines(start, first.0, now), second.0, now),
                       p.bytesReceived + |a| + |b|, p.packetsReceived + 1, second.1)
  {
    var p := pr.pcb;
    var first := SplitFrames(pr.dataBuffer + a);
    var second := SplitFrames(first.1 + b);
    var start := pr.(pcb := p.(lastActivity := now));
    SplitFramesReassembly(pr.dataBuffer, a, b);
    DataReceivedUnfold(pr, a + b, now);
    DispatchLinesAppend(start, first.0, second.0, now);
  }

  /** One newline-free line and its newline split into exactly that line. */
  lemma {:induction false} SplitSingleLine(line: seq<byte>)
    requires NoNewline(line)
    ensures SplitFrames(line + [NEWLINE]) == ([line], [])
  {
    var lines: seq<seq<byte>> := [line];
    var empty: seq<byte> := [];
    assert Frames(lines) + empty == line + [NEWLINE] by {
      assert lines[1..] == [];
    }
    SplitFramesUnique(line + [NEWLINE], lines, empty);
  }

  lemma {:induction false} DispatchOne(pr: Protocol, line: seq<byte>, now: int)
    ensures DispatchLines(pr, [line], now) == MessageReceived(pr, DecodeIgnore(line), now)
  {
    assert [line][1..] == [];
  }

  /** One complete line arriving into an empty buffer is dispatched on its
      own and leaves the buffer empty. */
  lemma {:induction false} DeliverFrame(pr: Protocol, line: seq<byte>, data: seq<byte>, now: int)
    requires pr.isConnected && pr.dataBuffer == [] && NoNewline(line) && data == line + [NEWLINE]
    ensures DataReceived(pr, data, now)
      == MessageReceived(WithInbound(pr.(pcb := pr.pcb.(lastActivity := now)),
                                     pr.pcb.bytesReceived + |data|, pr.pcb.packetsReceived + 1, []),
                         DecodeIgnore(line), now)
  {
    var x := WithInbound(pr.(pcb := pr.pcb.(lastActivity := now)),
                         pr.pcb.bytesReceived + |data|, pr.pcb.packetsReceived + 1, []);
    assert DataReceived(pr, data, now) == DispatchLines(x, [line], now) by {
      assert pr.dataBuffer + data == data;
      SplitSingleLine(line);
      DataReceivedConnected(pr, data, now);
    }
    DispatchOne(x, line, now);
  }

  /** The bytes `simulate_received_message` sends for a message without a
      newline form exactly one frame, and that frame decodes back to the
      message: with `DeliverFrame`, such a message reaches `message_received`
      intact. */
  lemma {:induction false} EncodeLine(message: string)
    requires '\n' !in message
    ensures Encode(message + "\n") == Encode(message) + [NEWLINE]
    ensures NoNewline(Encode(message)) && DecodeIgnore(Encode(message)) == message
  {
    EncodeAppend(message, "\n");
    EncodeNewlineFree(message);
    DecodeEncode(message);
    DecodeIgnoreOfValid(Encode(message));
  }

  /** The replies to the request kinds the benchmark sends. */
  lemma ReplyExamples()
    ensures Reply("PING hello") == Some("PONG hello\n")
    ensures Reply("ECHO test message") == Some("ECHO_REPLY test message\n")
    ensures Reply("DATA sample_data_payload") == Some("ACK 24\n")
    ensures Reply("BURST_DATA_7").None?
  {
    assert StartsWith("PING hello", "PING") && SliceFrom("PING hello", 5) == "hello";
    assert "PONG " + "hello" + "\n" == "PONG hello\n";
    assert !StartsWith("ECHO test message", "PING") && StartsWith("ECHO test message", "ECHO");
    assert SliceFrom("ECHO test message", 5) == "test message";
    assert "ECHO_REPLY " + "test message" + "\n" == "ECHO_REPLY test message\n";
    assert "DATA sample_data_payload"[..4] == "DATA";
    assert |"DATA sample_data_payload"| == 24;
    assert "BURST_DATA_7"[..4] == "BURS";
    assert NatToString(24) == "24" by {
      assert NatToString(2) == "2";
    }
    assert "ACK " + "24" + "\n" == "ACK 24\n";
  }
}
