# Benchmark cores, modelled in Dafny

The repository is a suite of Python performance benchmarks. Most of its files only time a
third-party library. Seven of them hold self-contained, sequential logic, and this project
models that logic and proves properties of it:

- `twisted_pb_new.py`: a protocol control block (PCB) manager. It has an eleven-state,
  TCP-like state machine whose transitions are checked against a fixed table, and
  per-connection counters. Its protocol frames received bytes into newline-terminated lines
  and answers `PING`, `ECHO` and `DATA` requests. The manager adds a three-step handshake, a
  four-step teardown, idle cleanup and statistics. Modules `PcbState`, `PcbProtocol`,
  `PcbManager` and `PcbInvariants`.
- `twisted_names_new.py`: a DNS cache with time-to-live expiry and hit/miss/expired
  counters, plus a resolver that looks in the cache first and then in a fixed table. Module
  `Dns`.
- `twisted_tcp_new.py`: a mock TCP connection with a prefix-dispatched responder and a
  first-in-first-out response queue, plus a server and a client that keep track of
  connections. Module `Tcp`.
- `twisted_iteration_new.py`: a mock `Deferred` that fires once and has callback and errback
  chains. It also has a reactor with a queue of delayed calls, a chain of arithmetic
  callbacks, and the mock `DeferredList` with its result processing. Module `Deferreds`.
- `fannkuch.py`: the pancake-flipping permutation benchmark. Module `Fannkuch`.
- `data_aggregation.py`: group-by aggregations over transactions. Only the integer and set
  parts are modelled. Module `Aggregation`.
- `csv_processing.py`: the CSV generator's quoting rule, and the statistics pass over rows
  that are already parsed. Module `CsvProcessing`.

Three modules are shared:

- `Common`: `Option` and `Result`, Python's `str()` of a natural number, slicing, ASCII
  `lower()` and `upper()`, `split` with one separator character, `join`, and `strip()`.
- `Utf8`: `str.encode()`, strict `bytes.decode()`, and `decode(errors='ignore')`, following
  RFC 3629.
- `Grouping`: the counting idioms `d[k] = d.get(k, 0) + 1` and `Counter`, filtering, folding,
  group-by, and `{key(x): x for x in xs}` lookups.

The model has no clock and no randomness. Every operation that reads `time.time()` takes an
integer `now` instead. Every random value is a parameter:

- the suffix of a connection id;
- the initial sequence number;
- the A-record addresses;
- the TTL a resolver caches with;
- the number in a `GET` reply;
- a client's local port.

Sleeps are dropped. Python dicts are modelled as maps, plus a sequence of keys in insertion
order wherever the source iterates over the dict or the order reaches its output. Bytes are
`seq<byte>`, text is `string`, and integers are unbounded, as in Python.

## Model

| member | source | states |
|---|---|---|
| PcbState.TransitionState | benchmarks/own/twisted_pb_new.py:78-98 | Succeeds exactly when the table lists the target for the current state. On success only the state and the activity time change. A refused request leaves the record untouched. |
| PcbState.NoSelfTransition | benchmarks/own/twisted_pb_new.py:80-92 | No state may move to itself, so a repeated request always fails. |
| PcbState.ClosedPredecessors | benchmarks/own/twisted_pb_new.py:80-92 | `CLOSED` is entered only from `LISTEN`, `SYN_SENT`, `SYN_RECEIVED`, `LAST_ACK` and `TIME_WAIT`. In particular `ESTABLISHED` cannot jump to `CLOSED`. |
| PcbState.SynSentOnlyFromClosed | benchmarks/own/twisted_pb_new.py:80-92 | Only `CLOSED` may move to `SYN_SENT`, so an establish succeeds at most once per record. |
| PcbState.HandshakeAndTeardownPermitted | benchmarks/own/twisted_pb_new.py:80-92 | Every step of the handshake path and of the teardown path is a permitted transition. |
| PcbState.TransitionKeepsCounters | benchmarks/own/twisted_pb_new.py:94-97 | A transition leaves the id, the traffic counters and the sequence number alone. |
| PcbState.StateNameInjective | benchmarks/own/twisted_pb_new.py:32-44 | Distinct states have distinct `.value` names, so the state distribution counts states faithfully. |
| PcbProtocol.SplitFrames | benchmarks/own/twisted_pb_new.py:124-129 | The lines that the buffer loop cuts out, and the rest it keeps, contain no newline. |
| PcbProtocol.SplitFramesConcat | benchmarks/own/twisted_pb_new.py:124-129 | Each line plus its newline, in order, followed by the rest, gives back the buffer: nothing is lost or reordered. |
| PcbProtocol.SplitFramesUnique | benchmarks/own/twisted_pb_new.py:124-129 | Framing is unambiguous: any split into newline-free lines and a newline-free rest is the one the loop computes. |
| PcbProtocol.SplitFramesReassembly | benchmarks/own/twisted_pb_new.py:124-129 | Framing `a` and then `b` yields the same lines and rest as framing `a + b` at once. |
| PcbProtocol.SendData | benchmarks/own/twisted_pb_new.py:152-165 | Sends exactly when connected and `ESTABLISHED`. A send adds the byte count to `bytes_sent` and to the sequence number, and adds one packet. A refused send changes nothing. |
| PcbProtocol.MessageReceived | benchmarks/own/twisted_pb_new.py:131-150 | Always appends the message, with its time and length, to the queue. A message with no reply changes nothing else. Otherwise the encoded `Reply(message)` is sent through `send_data` from the protocol with the message already queued. |
| PcbProtocol.MessageReceivedSends | benchmarks/own/twisted_pb_new.py:131-150 | A connected `ESTABLISHED` protocol sends the encoded reply as one packet: bytes sent and the sequence number grow by its length. A message without a reply, or a protocol that cannot send, leaves the outbound side unchanged. |
| PcbProtocol.ReplyCases | benchmarks/own/twisted_pb_new.py:140-150 | `PING` gets `PONG msg[5:]`, `ECHO` gets `ECHO_REPLY msg[5:]`, and `DATA` gets `ACK len`, tested in that order. There is no reply exactly when no prefix matches. |
| PcbProtocol.ReplyExamples | benchmarks/own/twisted_pb_new.py:140-150 | The replies to the request kinds the benchmark sends, including no reply to `BURST_DATA_7`. |
| PcbProtocol.DispatchLines | benchmarks/own/twisted_pb_new.py:124-129 | Dispatching queues one entry per line, each decoded with `errors='ignore'`, in order. The state, the connection flag and the inbound counters are kept. |
| PcbProtocol.DataReceived | benchmarks/own/twisted_pb_new.py:114-129 | Does nothing when disconnected. Otherwise it adds the byte count and one packet, leaves a newline-free buffer, and queues the complete lines; those lines and the new buffer give back the old buffer plus the data. |
| PcbProtocol.DataReceivedKeeps | benchmarks/own/twisted_pb_new.py:114-129 | Receiving never changes the state, the connection flag or the id, and only adds to the outbound counters. |
| PcbProtocol.DataReceivedReassembly | benchmarks/own/twisted_pb_new.py:114-129 | Delivering `a` then `b` equals delivering `a + b`, except that one more packet is counted. |
| PcbProtocol.DeliverFrame | benchmarks/own/twisted_pb_new.py:114-131 | One complete line arriving into an empty buffer reaches `message_received` on its own and leaves the buffer empty. |
| PcbProtocol.EncodeLine | benchmarks/own/twisted_pb_new.py:236-243 | The bytes `simulate_received_message` sends for a newline-free message form exactly one frame, and that frame decodes back to the message. |
| PcbManager.SerialOfConnId | benchmarks/own/twisted_pb_new.py:191 | The serial number can be read back from a connection id, whatever the random tag. |
| PcbManager.Handshake | benchmarks/own/twisted_pb_new.py:207-225 | The handshake succeeds exactly from `CLOSED` and ends `ESTABLISHED` and connected. A refused handshake changes nothing. |
| PcbManager.Teardown | benchmarks/own/twisted_pb_new.py:245-266 | The teardown succeeds exactly from `ESTABLISHED` and ends `CLOSED` and disconnected. A refused teardown changes nothing. |
| PcbManager.CreateConnection | benchmarks/own/twisted_pb_new.py:188-205 | Adds one `CLOSED` record under an id that carries the next serial number, and counts one more connection. |
| PcbManager.EstablishConnection | benchmarks/own/twisted_pb_new.py:207-225 | Succeeds exactly for a known `CLOSED` record. That record ends `ESTABLISHED`, with one more active connection and three more transitions. Otherwise nothing changes. |
| PcbManager.SendMessage | benchmarks/own/twisted_pb_new.py:227-234 | An unknown id fails with no change. Otherwise it sends the UTF-8 bytes of `message + "\n"` on that record. |
| PcbManager.SimulateReceivedMessage | benchmarks/own/twisted_pb_new.py:236-243 | An unknown id changes nothing. Otherwise it delivers the UTF-8 bytes of `message + "\n"` to that record. |
| PcbManager.CloseConnection | benchmarks/own/twisted_pb_new.py:245-266 | Succeeds exactly for a known `ESTABLISHED` record. That record ends `CLOSED` and disconnected and stays in the table; active drops by one, closed rises by one and transitions by four. Otherwise nothing changes. |
| PcbManager.Expire | benchmarks/own/twisted_pb_new.py:278-281 | A timed-out record is disconnected and keeps its counters. Through the table it becomes `CLOSED` only when the table allows it; under the forced policy it always becomes `CLOSED`. |
| PcbManager.ExpireOne | benchmarks/own/twisted_pb_new.py:276-283 | A record already `CLOSED` is skipped. Any other record is expired and counted as timed out, and the active count drops exactly when the source's after-the-fact `ESTABLISHED` test holds. |
| PcbManager.ExpireAll | benchmarks/own/twisted_pb_new.py:276-283 | The second cleanup loop keeps the key set, the order and every counter except timed-out and active. |
| PcbManager.ExpireAllRecord | benchmarks/own/twisted_pb_new.py:276-283 | Each listed record that is not yet `CLOSED` is expired once, and every other record is left alone. |
| PcbManager.ExpireAllCounts | benchmarks/own/twisted_pb_new.py:276-283 | Timed-out rises by the number of listed records not yet `CLOSED`. Active falls by the number whose expiry drops it. |
| PcbManager.IdleIds | benchmarks/own/twisted_pb_new.py:270-274 | The first cleanup loop collects exactly the records that are not active: no activity for `timeout` or longer. |
| PcbManager.CleanupInactive | benchmarks/own/twisted_pb_new.py:268-283 | Cleanup never removes or adds a record. |
| PcbManager.ExpireIdleRecord | benchmarks/own/twisted_pb_new.py:268-283 | A cleanup pass touches exactly the idle records not yet `CLOSED`, each once. |
| PcbManager.ExpireIdleCounts | benchmarks/own/twisted_pb_new.py:268-283 | A cleanup pass counts one timeout per idle record not yet `CLOSED`. |
| PcbManager.GetStatistics | benchmarks/own/twisted_pb_new.py:285-306 | The snapshot copies the maintained counters and reports `len(pcbs)` as current connections. Bytes and packets sent and received are summed over every record, and transferred is sent plus received. The distribution counts the records in each state, with exactly the state names present as keys. |
| PcbManager.SendMessageStatistics | benchmarks/own/twisted_pb_new.py:227-234 | Between two snapshots around a send, an accepted send adds its byte count and one packet to the summed sent traffic, and a refused one adds nothing. Received totals never change. |
| PcbManager.SumsPointUpdate | benchmarks/own/twisted_pb_new.py:290-293 | When each id is listed once, replacing one record changes each summed traffic counter by exactly that record's change. |
| PcbManager.StateDistributionTotal | benchmarks/own/twisted_pb_new.py:308-314 | The per-state counts add up to the number of records. |
| PcbManager.Run | benchmarks/own/twisted_pb_new.py:172-283 | Along any sequence of manager operations no record is ever removed. |
| PcbInvariants.CreateFresh | benchmarks/own/twisted_pb_new.py:188-205 | The id a creation picks is new, so a creation never overwrites a record. |
| PcbInvariants.RunKeepsValid | benchmarks/own/twisted_pb_new.py:172-283 | Every reachable manager is well formed. Its ids are numbered in creation order and match the records. Every record is `CLOSED` or `ESTABLISHED` and is connected only when `ESTABLISHED`, with no complete line left in its buffer. |
| PcbInvariants.RunGrows | benchmarks/own/twisted_pb_new.py:172-283 | Along any run, no record disappears, and neither per-record traffic counters nor cumulative statistics decrease. |
| PcbInvariants.ExpireOneKeepsValid | benchmarks/own/twisted_pb_new.py:276-283 | Expiring one record keeps the manager well formed under either policy. |
| PcbInvariants.CleanupLeavesEstablished | benchmarks/own/twisted_pb_new.py:276-283 | As written, cleanup leaves an idle `ESTABLISHED` record `ESTABLISHED`. The record is only disconnected, keeps its old activity time, and is still taken off the active count. |
| PcbInvariants.CleanupKeepsStates | benchmarks/own/twisted_pb_new.py:268-283 | As written, cleanup changes no record's state in a well-formed manager. |
| PcbInvariants.CleanupBreaksActive | benchmarks/own/twisted_pb_new.py:268-283 | From an exact manager holding an idle `ESTABLISHED` record, the as-written cleanup leaves the active count below the number of `ESTABLISHED` records. |
| PcbInvariants.CleanupDriftScenario | benchmarks/own/twisted_pb_new.py:268-283 | Concrete run: one record is established at time 0, and cleanups run at time 100 with timeout 60. Two cleanups drive the active count to -1 while the record stays `ESTABLISHED`, and a close after one cleanup also ends at -1. |
| PcbInvariants.RunKeepsActive | benchmarks/own/twisted_pb_new.py:172-283 | With idle reclamation in place of the as-written cleanup, the active count always equals the number of `ESTABLISHED` records, so it is never negative. |
| PcbInvariants.ApplyKeepsActive | benchmarks/own/twisted_pb_new.py:188-266 | Create, establish, send, receive and close each keep the active count exact. |
| PcbInvariants.ReclaimIdleIdempotent | benchmarks/own/twisted_pb_new.py:268-283 | The corrected reclamation leaves no idle record open, so repeating it at the same time changes nothing. |
| PcbInvariants.ReclaimScenario | benchmarks/own/twisted_pb_new.py:268-283 | In the same concrete run, the corrected reclamation closes the record. The count drops once to 0, and a second pass changes nothing. |
| Dns.Get | benchmarks/own/twisted_names_new.py:63-75 | A live entry is a hit. An expired entry is deleted and counted as expired. An absent entry is a miss. Exactly one counter grows, and only the looked-up key can disappear. |
| Dns.Put | benchmarks/own/twisted_names_new.py:77-79 | Stores a record stamped `now` under the lower-cased key, replacing any entry there. Other keys and the counters are untouched. |
| Dns.ClearExpired | benchmarks/own/twisted_names_new.py:84-93 | Deletes exactly the expired entries, counts each deletion, and leaves the other entries and the hit and miss counters alone. |
| Dns.GetStats | benchmarks/own/twisted_names_new.py:81-82 | The snapshot holds the cache's hit, miss and expired counts, each in its own field, so it accounts for the same lookups. Being a value, later operations cannot alter it. |
| Dns.Resolve | benchmarks/own/twisted_names_new.py:134-158 | Counts every query, never changes the table, and answers exactly when a live cache entry or a table entry exists for the key. |
| Dns.GetCaseInsensitive | benchmarks/own/twisted_names_new.py:64 | Two names that lower-case alike give the same lookup result and the same cache. |
| Dns.PutThenGet | benchmarks/own/twisted_names_new.py:51-79 | A stored record is found under any capitalisation while its age is at most its TTL. One second later it has expired and is deleted. |
| Dns.GetKeepsOthers | benchmarks/own/twisted_names_new.py:63-75 | A lookup leaves every other key's entry as it was. |
| Dns.GetAfterExpired | benchmarks/own/twisted_names_new.py:63-75 | An expired entry is counted as expired once; a second lookup at the same time is a miss. |
| Dns.CountersPartitionLookups | benchmarks/own/twisted_names_new.py:63-75 | Over any sequence of lookups, hits plus misses plus expired grows by exactly the number of lookups. |
| Dns.ClearExpiredSize | benchmarks/own/twisted_names_new.py:84-93 | The entries left plus the deletions counted equal the entries there were. |
| Dns.ClearExpiredThenGet | benchmarks/own/twisted_names_new.py:84-93 | After a purge, a lookup at the same time never meets an expired entry, and a second purge changes nothing. |
| Dns.ResolveCacheFirst | benchmarks/own/twisted_names_new.py:139-141 | A cache hit is answered without the table: the answer and the cache are the same whatever the table holds. |
| Dns.ResolveMiss | benchmarks/own/twisted_names_new.py:147-158 | On a miss, a name in the table is answered with the table's data and cached. A name missing from the table yields nothing and caches nothing. |
| Dns.ResolveTwice | benchmarks/own/twisted_names_new.py:134-158 | Resolving a known name twice at the same time: the second query is a cache hit with the same record. |
| Dns.DomainEntriesHas | benchmarks/own/twisted_names_new.py:113-124 | Each listed domain has its A, MX, TXT and NS entries with the source's data. |
| Dns.FakeDnsDbRecords | benchmarks/own/twisted_names_new.py:102-132 | In the finished table, every one of the twelve domains keeps its MX, TXT and NS data, because subdomain entries are all A records. |
| Tcp.Connect | benchmarks/own/twisted_tcp_new.py:50-55 | Always succeeds and marks the connection connected. |
| Tcp.ProcessData | benchmarks/own/twisted_tcp_new.py:73-89 | Decodes the bytes strictly, strips the text and replies by prefix. Bytes that are not UTF-8 get the fixed error reply. Every response is non-empty. |
| Tcp.PrefixesExclusive | benchmarks/own/twisted_tcp_new.py:77-87 | At most one of `ECHO`, `PING`, `GET` and `DATA` is a prefix of a message, so the test order decides nothing. |
| Tcp.RespondTagged | benchmarks/own/twisted_tcp_new.py:77-87 | Each reply starts with its request kind's tag and ends in a newline. An unrecognised message comes back whole behind `UNKNOWN: `. |
| Tcp.ReplyParts | benchmarks/own/twisted_tcp_new.py:77-87 | A reply is the tag for the first matching prefix, followed by a body that ends in a newline. |
| Tcp.EchoRoundTrip | benchmarks/own/twisted_tcp_new.py:73-89 | The bytes of `ECHO <text>\n` produce the bytes of `ECHO_REPLY: <text>\n` for any text without surrounding whitespace. |
| Tcp.InvalidUtf8 | benchmarks/own/twisted_tcp_new.py:75-89 | The error reply is given exactly when the bytes are not UTF-8. No reply to a decoded request equals it. |
| Tcp.RespondNotError | benchmarks/own/twisted_tcp_new.py:77-89 | No prefix reply text is the error text. |
| Tcp.LeadFFInvalid | benchmarks/own/twisted_tcp_new.py:75-89 | Input that starts with the byte 0xFF gets the error reply. |
| Tcp.DataAcknowledged | benchmarks/own/twisted_tcp_new.py:83-84 | A `DATA` request is acknowledged with its stripped length, which reads back as that number. |
| Tcp.SendData | benchmarks/own/twisted_tcp_new.py:57-71 | Refused, with no change, exactly when disconnected. A send counts the bytes and one message sent, queues exactly one response, and counts it as received. |
| Tcp.ReceiveData | benchmarks/own/twisted_tcp_new.py:91-96 | Yields `None` exactly on an empty queue, and otherwise the oldest response, removing only that one. |
| Tcp.SendAllQueues | benchmarks/own/twisted_tcp_new.py:57-71 | On a connected connection every message sent is answered, and the answers queue up in sending order. |
| Tcp.ReceiveAllFifo | benchmarks/own/twisted_tcp_new.py:91-96 | Draining the queue returns what it holds, oldest first, and leaves it empty. |
| Tcp.SendThenReceiveInOrder | benchmarks/own/twisted_tcp_new.py:57-96 | A batch sent to an idle connection and then drained comes back as the batch's responses in sending order. |
| Tcp.Stop | benchmarks/own/twisted_tcp_new.py:121-126 | Stops the server and forgets every connection; the counters stay. |
| Tcp.Accept | benchmarks/own/twisted_tcp_new.py:128-139 | Refused with no change exactly when stopped. Otherwise it registers a connected `server_conn_{k}` under the next number, counted in both total and active. |
| Tcp.AcceptKeepsValid | benchmarks/own/twisted_tcp_new.py:128-139 | An accepted id is new, so no open connection is replaced, and the server invariant is kept. |
| Tcp.ProcessClientData | benchmarks/own/twisted_tcp_new.py:141-150 | An unknown id fails with no change. Success means the connection is connected, and only a success counts a processed message. |
| Tcp.ProcessKeepsValid | benchmarks/own/twisted_tcp_new.py:141-150 | On a well-formed server, processing succeeds exactly for a known id, and the invariant is kept. |
| Tcp.GetResponse | benchmarks/own/twisted_tcp_new.py:152-155 | Gives the connection's oldest response, or `None` for an unknown id. It never changes which connections are open. |
| Tcp.CloseConnection | benchmarks/own/twisted_tcp_new.py:157-162 | Forgets a known connection and counts it inactive. An unknown id changes nothing. |
| Tcp.CloseKeepsValid | benchmarks/own/twisted_tcp_new.py:157-162 | Closing keeps the invariant, lowers active by one only for a known id, and a second close is a no-op. |
| Tcp.StopKeepsActiveCount | benchmarks/own/twisted_tcp_new.py:121-126 | A stop keeps the invariant exactly when no connection is open, because it forgets connections without lowering the active count. |
| Tcp.GetStats | benchmarks/own/twisted_tcp_new.py:164-175 | Bytes sent and received are the sums over the open connections, in dict order, and transferred is their sum. It copies the processed-message count and the connection counters, and reports current connections as the number open. |
| Tcp.ProcessStats | benchmarks/own/twisted_tcp_new.py:141-175 | One processed message adds its length to bytes sent, its response's length to bytes received, both to bytes transferred, and one processed message. |
| Tcp.ClientConnect | benchmarks/own/twisted_tcp_new.py:183-190 | Always yields a new numbered, connected connection. |
| Tcp.ClientSend | benchmarks/own/twisted_tcp_new.py:192-194 | Succeeds exactly for a known, connected id, and keeps the set of connections. |
| Tcp.ClientReceive | benchmarks/own/twisted_tcp_new.py:196-198 | Gives the connection's oldest response, or `None` with no change for an unknown id. |
| Tcp.ClientClose | benchmarks/own/twisted_tcp_new.py:200-203 | Forgets the connection and keeps the counter. |
| Tcp.ClientRequestReply | benchmarks/own/twisted_tcp_new.py:183-198 | A request sent right after connecting is answered, and the answer is the next thing received. |
| Deferreds.AddCallback | benchmarks/own/twisted_iteration_new.py:39-47 | On a fired deferred the callback runs at once and is not kept; an exception it raises becomes the result. Otherwise it is queued. |
| Deferreds.AddErrback | benchmarks/own/twisted_iteration_new.py:49-51 | Only registers, fired or not. |
| Deferreds.FirstRecovery | benchmarks/own/twisted_iteration_new.py:62-69 | Yields nothing exactly when every errback raises. Otherwise it yields the value of an errback that returns normally, and every errback before it raises. |
| Deferreds.FireCallback | benchmarks/own/twisted_iteration_new.py:53-69 | Ignored once fired. Otherwise it fires and runs the registered chain over the value, keeping the registrations. |
| Deferreds.FireErrback | benchmarks/own/twisted_iteration_new.py:71-81 | Ignored once fired. Otherwise it fires without running callbacks. The result is the value of the first errback that returns normally, whatever its position, or the error itself when every errback raises. |
| Deferreds.FireOnce | benchmarks/own/twisted_iteration_new.py:53-74 | After `callback` or `errback`, a further `callback` or `errback` changes nothing. |
| Deferreds.PipeRuns | benchmarks/own/twisted_iteration_new.py:59-61 | When no callback raises, firing runs them in registration order, each on the previous result, and the errbacks play no part. |
| Deferreds.RaiseSkipsRest | benchmarks/own/twisted_iteration_new.py:62-69 | When a callback raises, the later callbacks never run. The result is the first recovering errback's value, or the failing callback's input. |
| Deferreds.LateRegistration | benchmarks/own/twisted_iteration_new.py:39-69 | Without exceptions, registering a callback before or after firing gives the same result. |
| Deferreds.RaisingRegistration | benchmarks/own/twisted_iteration_new.py:39-69 | If the callback raises, the two orders differ. Registered before firing, its exception goes to the errbacks; registered after, the exception becomes the result. |
| Deferreds.AddOne | benchmarks/own/twisted_iteration_new.py:150-151 | Adds one to a number and raises on anything else. |
| Deferreds.MultiplyTwo | benchmarks/own/twisted_iteration_new.py:153-154 | Doubles a number. |
| Deferreds.SubtractTen | benchmarks/own/twisted_iteration_new.py:156-157 | Subtracts ten from a number and raises on anything else. |
| Deferreds.SimpleDeferred | benchmarks/own/twisted_iteration_new.py:133-146 | Without a delay, the deferred has fired with the value and has nothing registered. |
| Deferreds.IterateClosedForm | benchmarks/own/twisted_iteration_new.py:150-164 | The cyclic chain of `k` steps has a closed form: each full round maps `x` to `2x - 8`. |
| Deferreds.ChainedDeferredValue | benchmarks/own/twisted_iteration_new.py:148-166 | `create_chained_deferreds(count, base)` has fired, keeps no pending callback, and holds `base` after exactly `max(count, 0)` cyclic steps. |
| Deferreds.DeferredList | benchmarks/own/twisted_iteration_new.py:123-131 | The mock list holds one `(True, result)` pair per deferred, in order, in a fresh deferred that has not fired. |
| Deferreds.ProcessResults | benchmarks/own/twisted_iteration_new.py:187-210 | The summary's total is the number of results. |
| Deferreds.ProcessResultsCallback | benchmarks/own/twisted_iteration_new.py:187-210 | As a callback, `process_results` returns a summary exactly for a list of pairs or the empty string. The empty string gives total 0. A non-empty string or a dict raises `ValueError` at the unpacking, and any other value raises `TypeError`. |
| Deferreds.ProcessResultsSplits | benchmarks/own/twisted_iteration_new.py:187-210 | The successful list holds the results flagged true, and the failed list those flagged false, both in input order. |
| Deferreds.ProcessResultsPartition | benchmarks/own/twisted_iteration_new.py:187-210 | Every result lands in exactly one of the two lists. |
| Deferreds.ProcessDeferredListPending | benchmarks/own/twisted_iteration_new.py:183-213 | In the mock path the list's deferred never fires. `process_results` is only registered, and the deferred still holds the raw pairs, all flagged successful. |
| Deferreds.ProcessDeferredListOnFire | benchmarks/own/twisted_iteration_new.py:183-213 | Were the list fired with pairs, the result would be their processed summary. |
| Deferreds.CallLater | benchmarks/own/twisted_iteration_new.py:89-92 | Appends one call due at `now + delay`, keeps the earlier calls, and returns its position. |
| Deferreds.Stop | benchmarks/own/twisted_iteration_new.py:111-112 | Stops the reactor and keeps the queue. |
| Deferreds.RunPending | benchmarks/own/twisted_iteration_new.py:94-109 | Runs exactly the due calls, in list order, and keeps exactly the calls still waiting, in order. |
| Deferreds.RunDue | benchmarks/own/twisted_iteration_new.py:99-105 | The first loop runs the due calls in list order and records exactly their positions, increasing. |
| Deferreds.DeleteExecuted | benchmarks/own/twisted_iteration_new.py:108-109 | Deleting the recorded positions from the back leaves exactly the waiting calls, in order. |
| Utf8.EncodeChar | benchmarks/own/twisted_pb_new.py:233 | One to four bytes per character, one exactly for ASCII, with every byte of a longer sequence at or above 0x80. |
| Utf8.DecodeEncode | benchmarks/own/twisted_tcp_new.py:76 | Strict decoding undoes encoding. |
| Utf8.DecodeIgnoreOfValid | benchmarks/own/twisted_pb_new.py:129 | On well-formed input, decoding with `errors='ignore'` equals strict decoding. |
| Utf8.EncodeNewlineFree | benchmarks/own/twisted_pb_new.py:242 | Encoding a newline-free text yields no newline byte. |
| Common.NatToString | benchmarks/own/twisted_pb_new.py:148-149 | `str(n)` is a non-empty digit string with no leading zero. |
| Common.ParseNatToString | benchmarks/own/twisted_pb_new.py:148-149 | Reading the digits of `str(n)` back gives `n`. |
| Common.Lower | benchmarks/own/twisted_names_new.py:64 | Lower-casing keeps the length and maps each character on its own. |
| Common.LowerIdempotent | benchmarks/own/twisted_names_new.py:64 | Lower-casing a key twice changes nothing more. |
| Common.Split | benchmarks/own/csv_processing.py:109 | Splitting gives at least one piece, and no piece contains the separator. |
| Common.JoinSplit | benchmarks/own/csv_processing.py:127 | Joining the pieces of a split with the separator gives the original. |
| Common.SplitJoin | benchmarks/own/csv_processing.py:59 | Splitting a join of separator-free pieces gives the pieces back. |
| Common.Strip | benchmarks/own/twisted_tcp_new.py:76 | The result neither starts nor ends with whitespace. |
| Common.StripInfix | benchmarks/own/twisted_tcp_new.py:76 | Stripping removes only whitespace, and only from the ends. |
| Common.StripIdempotent | benchmarks/own/csv_processing.py:111 | Stripping twice strips nothing more. |
| Grouping.Tally | benchmarks/own/csv_processing.py:86-87 | The tally's keys are the keys counted, each mapped to its number of occurrences. |
| Grouping.TallySum | benchmarks/own/csv_processing.py:86-87 | The counts of a tally, read in dict order, add up to the number of keys. |
| Grouping.GroupByKeys | benchmarks/own/data_aggregation.py:91-99 | A group-by has exactly the keys that occur. |
| Grouping.GroupByGroups | benchmarks/own/data_aggregation.py:91-99 | Each group holds the fold of the elements with its key, in input order. |
| Grouping.IndexByLast | benchmarks/own/data_aggregation.py:140 | A lookup table holds the keys that occur, each mapped to the last record with that key. |
| Fannkuch.Flip | benchmarks/own/fannkuch.py:45 | Reverses the first `k + 1` entries and leaves the rest. |
| Fannkuch.FlipInvolution | benchmarks/own/fannkuch.py:45 | Flipping the same prefix twice restores the sequence. |
| Fannkuch.FlipKeepsPerm | benchmarks/own/fannkuch.py:45 | A flip keeps a permutation a permutation. |
| Fannkuch.Rotate | benchmarks/own/fannkuch.py:53 | Rotates the first `r + 1` entries left by one and leaves the rest. |
| Fannkuch.RotateRoundTrip | benchmarks/own/fannkuch.py:53 | The opposite rotation undoes it. |
| Fannkuch.RotateKeepsPerm | benchmarks/own/fannkuch.py:53 | A rotation keeps a permutation a permutation. |
| Fannkuch.FlipCountBound | benchmarks/own/fannkuch.py:42-47 | Flipping a permutation stops within `2^n` flips. |
| Fannkuch.CountFlips | benchmarks/own/fannkuch.py:41-47 | The inner loop counts exactly the flips needed to bring 0 to the front, works on a copy, and ends with a permutation starting with 0. |
| Fannkuch.ResetCounts | benchmarks/own/fannkuch.py:36-38 | Resetting the counters below `r` to their maximum keeps the number of passes left. |
| Fannkuch.Advance | benchmarks/own/fannkuch.py:52-59 | Stepping to the next permutation rotates prefixes as the counters say, keeps a permutation, and counts the passes left down by one. It ends the benchmark exactly when none were left. |
| Fannkuch.MaxScore | benchmarks/own/fannkuch.py:49-50 | The largest flip count among the scored permutations, or 0. |
| Fannkuch.Pass | benchmarks/own/fannkuch.py:32-59 | One outer pass raises `max_flips` to the current permutation's flip count if that passes the test and is larger, and counts the passes left down by one. |
| Fannkuch.VisitScore | benchmarks/own/fannkuch.py:49-50 | Updating `max_flips` with one more permutation keeps it the maximum so far. |
| Fannkuch.Fannkuch | benchmarks/own/fannkuch.py:20-59 | Fails exactly for `n < 1`. Otherwise the result is the largest score over `n!` visited permutations of `0..n-1`, starting from the identity. |
| Aggregation.IncrementSnoc | benchmarks/own/data_aggregation.py:99 | Counting keys one at a time into a `Counter` is tallying them, with keys in first-insertion order. |
| Aggregation.MostCommon | benchmarks/own/data_aggregation.py:106 | `most_common(n)` keeps `min(n, len)` entries, all taken from the counter. |
| Aggregation.MostCommonDominates | benchmarks/own/data_aggregation.py:106 | No entry left out of `most_common(n)` has a larger count than one kept. |
| Aggregation.MostCommonSorted | benchmarks/own/data_aggregation.py:106 | `most_common(n)` lists counts in decreasing order. |
| Aggregation.TopOfTally | benchmarks/own/data_aggregation.py:99-106 | On a tally: at most `n` entries, each a key with its true count, in decreasing order, and nothing left out beats anything kept. |
| Aggregation.ByCategory | benchmarks/own/data_aggregation.py:80-108 | Only categories that occur appear. |
| Aggregation.CategoryStatsSound | benchmarks/own/data_aggregation.py:91-106 | Per category: the count is its multiplicity, quantities are summed, and unique users are at most the count. Top products are at most ten, each with its true count, and none left out occurs more often. |
| Aggregation.CategoryCountsPartition | benchmarks/own/data_aggregation.py:91-97 | The per-category counts add up to the number of transactions. |
| Aggregation.RegionPaymentCells | benchmarks/own/data_aggregation.py:110-134 | A cell exists exactly for each region and payment pair that occurs. It lists that pair's transaction ids in input order, and its count is their number. |
| Aggregation.AnalyzeUserBehavior | benchmarks/own/data_aggregation.py:136-179 | Only users with transactions appear. |
| Aggregation.UserStatsSound | benchmarks/own/data_aggregation.py:152-171 | Per user: the count, at most that many categories, and months keyed by `date[:7]`. The preferred payment is a most-used one. |
| Aggregation.UserDemographics | benchmarks/own/data_aggregation.py:173-177 | Age and tier are present exactly for users in the lookup, taken from the last user record with that id. |
| Aggregation.PreferredIsMost | benchmarks/own/data_aggregation.py:170 | `most_common(1)` of a non-empty tally names a key of greatest count. |
| Aggregation.ComplexSplit | benchmarks/own/data_aggregation.py:205-234 | The single loop fills each table as a loop of its own would. |
| Aggregation.CategoryRegionSound | benchmarks/own/data_aggregation.py:215-245 | Each occurring category and region pair gets a summary of a non-empty list, one entry per transaction of the pair. |
| Aggregation.TierSound | benchmarks/own/data_aggregation.py:218-252 | Tier statistics cover only transactions of known users. A tier's count is their number, and its unique products are at most that. |
| Aggregation.TierCountsBound | benchmarks/own/data_aggregation.py:218-223 | Tier counts add up to the number of transactions of known users, so to at most the number of transactions. |
| Aggregation.ProductSound | benchmarks/own/data_aggregation.py:226-261 | Per product: quantity sold is the sum, unique buyers and regions are at most its transaction count, and its category comes from the last product record with its id. |
| Aggregation.TemporalSound | benchmarks/own/data_aggregation.py:233-234 | Months are keyed by `date[:7]`, each holding the categories sold in it. |
| CsvProcessing.QuoteField | benchmarks/own/csv_processing.py:57 | A field is wrapped in double quotes exactly when it contains a comma or a double quote. Inner quotes are left as they are. |
| CsvProcessing.QuoteFieldLosesQuotes | benchmarks/own/csv_processing.py:57 | As written, a field with a double quote never reads back as itself under section 2 of RFC 4180. |
| CsvProcessing.QuoteFieldExample | benchmarks/own/csv_processing.py:57 | `a"b` is written as `"a"b"`, which is malformed. |
| CsvProcessing.QuoteEscapedRoundTrip | benchmarks/own/csv_processing.py:57 | With inner quotes doubled, every field reads back as itself. |
| CsvProcessing.FormatRowPlain | benchmarks/own/csv_processing.py:57 | A row of comma- and quote-free fields splits back at its commas into its fields. |
| CsvProcessing.GenerateCsvLines | benchmarks/own/csv_processing.py:37-59 | Without newlines in fields, the text splits into the header line followed by the row lines, in order. |
| CsvProcessing.ProcessNameRecovers | benchmarks/own/csv_processing.py:119-130 | The words joined by `_` and the reversal reversed both give the name, the length is its length, and the upper-case form lower-cases to the lower-case form. |
| CsvProcessing.EmailValidity | benchmarks/own/csv_processing.py:134 | Valid exactly when there is an `@` and, after the first one, a dot before any further `@`. |
| CsvProcessing.GeneratedEmailValid | benchmarks/own/csv_processing.py:44 | The generator's addresses are valid. |
| CsvProcessing.DotlessDomainInvalid | benchmarks/own/csv_processing.py:134 | A dot only before the `@` does not count. |
| CsvProcessing.SecondAtInvalid | benchmarks/own/csv_processing.py:134 | Only the text up to a second `@` is looked at. |
| CsvProcessing.FirstError | benchmarks/own/csv_processing.py:119-138 | No exception exactly when every row is fine. Otherwise it is the exception of the first failing row. |
| CsvProcessing.ProcessCsvData | benchmarks/own/csv_processing.py:61-158 | Fails exactly when some row raises. On success it counts every row, and the salary average is present exactly when there are rows. |
| CsvProcessing.TotalOf | benchmarks/own/csv_processing.py:83 | The pass counts every row. |
| CsvProcessing.ColumnCountsOf | benchmarks/own/csv_processing.py:86-106 | Department and location counts are the tallies of their columns. |
| CsvProcessing.AgeBandsOf | benchmarks/own/csv_processing.py:90-96 | Each age band holds the number of rows in it. |
| CsvProcessing.AgeBandsPartition | benchmarks/own/csv_processing.py:90-96 | The three bands add up to the number of rows. |
| CsvProcessing.SkillsOf | benchmarks/own/csv_processing.py:109-112 | Skill frequencies are the tally of every `;`-separated, stripped skill. |
| CsvProcessing.SalaryTotalOf | benchmarks/own/csv_processing.py:102 | The salary total is the sum of the salaries. |
| CsvProcessing.SalaryBoundsOf | benchmarks/own/csv_processing.py:99-101 | The minimum is the least salary (infinite for no rows). The maximum is the greatest salary or 0, whichever is larger. |
| CsvProcessing.NamesOf | benchmarks/own/csv_processing.py:119-130 | One processed name per row, in order. |
| CsvProcessing.ProcessCsvDataSound | benchmarks/own/csv_processing.py:61-158 | On success: the bands add up to the total, and so do department and location counts. Skills are tallied, the salary total is the sum, the bounds hold, and the names are processed in order. |

## Left out

- Clocks, randomness and sleeps. They become parameters (`now`, ids, tags, TTLs, numbers) or are dropped.
- Benchmark drivers and the simulation functions built on the core. This covers `simulate_protocol_operations`, the DNS query batches, the TCP load tests, the nested-deferred, async-computation and error-handling tests, `run_*_benchmark` and `main`.
- Everything floating-point: amounts, totals, averages, ratings, `success_rate`, `performance_score` and prices. The aggregation models keep counts, sets and the integer quantities only. The CSV average is kept as the exact pair (total, count) rather than a quotient.
- `csv.DictReader` parsing and the `int()`/`float()` conversions of CSV fields. Rows are given already parsed, and `int(year)` is not modelled. A row whose hire date does not split into three parts is modelled as raising `ValueError`.
- The `if total_employees % 100 == 0` block of the CSV pass. It computes values that are then discarded.
- `Dns.GetStats`: its snapshot is modelled as a value, so the property that a snapshot is unaffected by later operations holds by construction and is not stated.
- The ordering of the CSV and aggregation result dicts. Counts are maps, and the dict order of their keys is modelled only where a sum over them needs it.
- `lower()` and `upper()` act on ASCII letters only. Python maps other letters too, which the benchmarks' ASCII data never reaches.
- `ProtocolControlBlock.send_buffer`. Nothing in the core reads or writes it. `update_activity` is modelled as setting the activity time to `now`.
- `Fannkuch.Fannkuch`: the visited permutations are not proved distinct. Only the count of passes, `n!`, is proved.
- The `check` counter of `fannkuch`. It only guards a commented-out print.
- The real Twisted branches, taken when the library is installed. They run code that is not part of this model.
- `create_simple_deferred` with a positive delay. It goes through the reactor's `callLater`, which is modelled on its own.
- A delayed call that schedules another call while `run_pending` runs. Calls are modelled as state transformers that cannot reach the reactor.
- Exceptions raised by delayed calls, which `run_pending` swallows. A call is modelled as a total function.
- `BaseException` subclasses that `except Exception` lets through.
- `Tcp.StopKeepsActiveCount`: `stop` forgets open connections without lowering `active_connections`. The server invariant is therefore proved preserved only across a stop with no open connection; the lemma states exactly this.
- `is_valid_email` is computed but never used by the source. It is modelled as a predicate, not as a field of the result.
- Closing and idle cleanup never remove a record, and cleanup asks for `CLOSED` through the transition table. A reclamation that forces `CLOSED` is modelled separately (see Findings).

## Findings

| source | as written | input that shows it | evidently intended | confidence | as-written member | corrected member |
|---|---|---|---|---|---|---|
| benchmarks/own/twisted_pb_new.py:276-283 | Cleanup requests `CLOSED` through the transition table, which refuses `ESTABLISHED -> CLOSED`. The idle record stays `ESTABLISHED` but `active_connections` is still lowered, on every pass and again at a later close. | One connection established at time 0; `cleanup_inactive_connections(60)` twice at time 100 gives `active_connections == -1` with the record still `ESTABLISHED`. | An idle connection is closed once, and `active_connections` keeps counting the `ESTABLISHED` records. | not executed | PcbInvariants.CleanupDriftScenario | PcbInvariants.ReclaimScenario |
| benchmarks/own/csv_processing.py:57 | A field holding a comma or a double quote is wrapped in quotes, but inner quotes are not doubled. Section 2 of RFC 4180 requires doubling them, so the field cannot be read back. | The field `a"b` is written as `"a"b"`, which is malformed. | Inner quotes doubled, so every field reads back as itself. | not executed | CsvProcessing.QuoteFieldLosesQuotes | CsvProcessing.QuoteEscapedRoundTrip |
