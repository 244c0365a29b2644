# A verified model of the network core

This project models the hardest parts of the Ethernet software in Dafny and proves what they promise:
the lwIP code under `Libraries/Ethernet/lwip/src` and the Ethernet-to-CAN example `examples/can-ethernet.c`.
Run `dafny verify dfyconfig.toml` to check it.

| files | what they model |
|---|---|
| `Words`, `OnesComplement` | machine words, and the one's-complement sum of RFC 1071 (sections 1 and 2) as reference |
| `StandardChksum`, `ChainChksum`, `ChecksumField` | the three forms of `lwip_standard_chksum`, the folds over pbuf chains with pseudo headers, and verification of a stored checksum |
| `Types`, `TcpPcb`, `Vectors`, `Netconn`, `NetconnRuns`, `WriteRequest`, `WriteRuns` | the message protocol between application threads and the TCP/IP thread, with the resumable vectored write |
| `RecvTcp`, `SocketTable`, `AcceptEvents` | receiving from a TCP socket, the reference-counted socket slots, and the hand-over of early receive events |
| `CStrings`, `DnsName`, `DnsPacket`, `DnsEntries`, `DnsResolver` | host name comparison, the DNS encoder and name walkers, queries and replies, and the resolver with its table, requests, servers and timer (RFC 1035, sections 3.1 and 4.1) |
| `Itoa` | `lwip_itoa` |
| `CanFrames` | repacking of received bytes into CAN frames, and the echo session around it |

Code that the source writes as loops and in-place updates is written as methods and classes here, and proved
against functions and invariants that state the property. The environment (TCP control blocks, allocation,
the network, the interleaving of threads) is chosen freely by parameters or nondeterministic methods, so each
statement holds for every behaviour of it. What TCP is asked to do is recorded with its answers, and the answers to messages
are those of TCP. The host is little-endian with 32-bit words, as the port configures it.

The netconn and socket files model the configuration without core locking, without linger and send timeouts, with
one blocked caller per netconn; the socket slots are modelled with full duplex, which is where references are
counted. The resolver is modelled for IPv4, with one outstanding query per name, the counter as source of
transaction identifiers, and callbacks that do not re-enter it. The sizes of its tables, the number of servers and
the number of retries are parameters.

## What the proofs found

* `lwip_standard_chksum`, version 2: the comment promises that the accumulator does not wrap up to 0x20000 bytes;
  it is exact up to 0x20002 (`StandardChksum.AccumulatorReach`).
* `lwip_netconn_do_writemore`: the inner loop compares a length cut to 16 bits. A blocking write on a connection that
  may send will stick when the room in the send buffer ends in front of a non-zero multiple of 65536 bytes of a vector
  that is not the last (`Conn.WillStick`, which depends only on what is known before the call). Unless `tcp_write` lacks
  memory, the loop turns without end exactly then (`Conn.WriteLoop`, `Conn.DoWrite`). Vectors are safe for every amount of
  room exactly when all but the last fit in 16 bits (`Vectors.SafeVectors`); `WriteRuns.HangsAtOnce` and
  `WriteRuns.HangsLater` are calls that hang.
* `netconn_write_vectors_partly` cuts the size of a large write at SSIZE_MAX but not its vectors, and
  `lwip_netconn_do_writemore` goes by the vectors. As long as memory, route and connection last, a blocking write that
  was cut is answered with success exactly when some call finds room for SSIZE_MAX bytes in all, and not one more, before
  any call finds more (`WriteRuns.FollowCutWrite`). A call that finds more makes it overrun its length, for instance with one buffer and room
  for 65535 bytes at every call (`WriteRuns.CutWriteOverruns`); then it is answered by nothing but an error, and an
  assertion fails at the next call (`WriteRuns.OverrunIsNotAnswered`).
* `lwip_netconn_do_close` takes on a close message while another close is in progress: only the states CONNECT and WRITE
  are refused. The assertion at `api_msg.c:1981` fails, which does not stop on this port, and the message of the first
  close is overwritten and never answered (`NetconnRuns.SecondCloseLosesFirst`). In every history each message but the
  current one is answered once if and only if no close message arrives while a close is in progress (`NetconnRuns.Run`),
  and a pending close is answered exactly if the step that ends it is not such a message (`NetconnRuns.CloseIsAnswered`).
  A close is only pending over a TCP layer whose `tcp_close` or `tcp_shutdown` reports a lack of memory, as documented;
  the one of this repository retries by itself.
* `lwip_recv_tcp` trusts in getting the same error again from the netconn layer when it returns data in front of one. It
  does not in exactly one case: the mailbox had no room when the error came, no FIN had come before it, and the call asked
  for more than there was. Then the stored error is gone, and the next call reports ERR_CONN
  (`RecvTcp.Receiver.LwipRecvTcp`, `RecvTcp.EmptyEnds`).
* `lwip_accept`: the count of early events is cast to 16 bits, and events are counted in 16 bits. In every interleaving,
  none is lost or doubled exactly when the count that was handed over is not negative in 16 bits and the number of
  outstanding events fits in 16 bits (`AcceptEvents.NoEventLost`); 32768 early events are lost
  (`AcceptEvents.LateAcceptIsExact`).
* `dns_send` and `dns_compare_name` agree on a name exactly when no label has 192 bytes or more and no label but the
  first is empty (`DnsName.EncodedNameCompares`). For any other name, one with a trailing dot for instance, every
  reply that echoes the question is ignored (`DnsPacket.EchoJudged`).
* `dns_skip_name` misses the end of exactly the root name (`DnsPacket.OwnerSkipped`).
* `EthToCAN1` sends one frame of foreign bytes for an empty payload, and is right otherwise (`CanFrames.EthToCAN1`).
* `can_eth_recv` sends a chain to the CAN bus only when nothing received before is still held for echoing; other
  chains are echoed but never become frames (`CanFrames.Session.Recv`, `CanFrames.HeldIsNotFramed`).

## Model

| member | source | states |
|---|---|---|
| StandardChksum.Chksum1 | Libraries/Ethernet/lwip/src/core/inet_chksum.c:80-114 | The byte-wise form returns the RFC 1071 sum of the bytes, bit for bit (0 and 0xFFFF told apart), for every buffer up to 0x20002 bytes |
| StandardChksum.Chksum2 | Libraries/Ethernet/lwip/src/core/inet_chksum.c:133-173 | The 16-bit form, at an even or odd start, returns the same value as the reference sum for every buffer up to 0x20002 bytes |
| StandardChksum.Chksum3 | Libraries/Ethernet/lwip/src/core/inet_chksum.c:189-255 | The unrolled 32-bit form with end-around carries returns the same value at every alignment, for buffers of every length |
| StandardChksum.AccumulatorReach | Libraries/Ethernet/lwip/src/core/inet_chksum.c:119-172 | The 32-bit accumulator of versions 1 and 2 holds the plain sum of all buffers of n bytes exactly when n is at most 0x20002, at either alignment |
| StandardChksum.OddStart | Libraries/Ethernet/lwip/src/core/inet_chksum.c:143-170 | A buffer begun at an odd address is summed as its byte-swapped words, up to a multiple of 65535 |
| StandardChksum.AddHalfwords | Libraries/Ethernet/lwip/src/core/inet_chksum.c:147-152 | The 16-bit loop adds exactly the host-order words of the buffer and leaves at most one byte |
| StandardChksum.AddWords | Libraries/Ethernet/lwip/src/core/inet_chksum.c:213-236 | The unrolled loop with its carries keeps the sum up to multiples of 65535, and zero apart from non-zero |
| StandardChksum.CarryAddValue | Libraries/Ethernet/lwip/src/core/inet_chksum.c:213-223 | An addition with end-around carry gives away multiples of 2^32 - 1, which are multiples of 65535 |
| OnesComplement.InternetSumIsNorm | Libraries/Ethernet/lwip/src/core/inet_chksum.c:79-114 | The carried 16-bit sum of RFC 1071 is the plain sum of words brought into 16 bits without making a non-zero sum zero |
| OnesComplement.Example | Libraries/Ethernet/lwip/src/core/inet_chksum.c:79-114 | The reference sum of the example in section 3 of RFC 1071, and of a single octet |
| OnesComplement.FoldTwice | Libraries/Ethernet/lwip/src/include/lwip/inet_chksum.h:46-52 | Two folds bring every 32-bit value into 16 bits, keep it modulo 65535, and keep zero and non-zero apart |
| OnesComplement.FoldValue | Libraries/Ethernet/lwip/src/include/lwip/inet_chksum.h:46-52 | A fold takes away a multiple of 65535 and keeps zero and non-zero apart |
| OnesComplement.FoldOnce | Libraries/Ethernet/lwip/src/core/inet_chksum.c:280-282 | One fold is enough for the sum of two 16-bit words |
| OnesComplement.NormByteOrder | Libraries/Ethernet/lwip/src/core/inet_chksum.c:108-114 | Summing in the host's byte order and swapping gives the network-order sum (section 2(B) of RFC 1071) |
| OnesComplement.SwapScales | Libraries/Ethernet/lwip/src/core/inet_chksum.c:283-287 | Swapping the bytes of a 16-bit sum multiplies the underlying sum by 256 |
| OnesComplement.SumsConcat | Libraries/Ethernet/lwip/src/core/inet_chksum.c:268-287 | Sums of parts combine: the second part counts byte-swapped when the first has odd length |
| ChainChksum.AddBuffer | Libraries/Ethernet/lwip/src/core/inet_chksum.c:276-287 | Adding a buffer's sum and folding once keeps the accumulator a 16-bit sum of everything seen, at odd and even offsets |
| ChainChksum.SwapAccumulator | Libraries/Ethernet/lwip/src/core/inet_chksum.c:283-287 | The swap after an odd buffer moves the accumulator to the other byte order |
| ChainChksum.AddPart | Libraries/Ethernet/lwip/src/core/inet_chksum.c:276-287 | One turn of the loop over a chain adds one buffer to the sum of all bytes seen |
| ChainChksum.InetCksumPseudoBase | Libraries/Ethernet/lwip/src/core/inet_chksum.c:260-294 | For every chain (any lengths, any start addresses, any of the three versions) the result is the complement of the sum over start value, all bytes in order, protocol and length, whatever the fragmentation |
| ChainChksum.InetCksumPseudoPartialBase | Libraries/Ethernet/lwip/src/core/inet_chksum.c:399-440 | The result is the full checksum over only the first chksum_len bytes of the chain, even where the cut falls inside a buffer and the swap test looks at the whole buffer; the assertion of the loop fires exactly when 0x7FFF or more bytes are left after the first buffer |
| ChainChksum.InetChksumPbuf | Libraries/Ethernet/lwip/src/core/inet_chksum.c:568-592 | The checksum of a chain is the RFC 1071 checksum of its concatenated bytes |
| ChainChksum.InetChksumPseudo | Libraries/Ethernet/lwip/src/core/inet_chksum.c:310-330 | With IPv4 addresses the result is the RFC 1071 checksum of the 12-byte pseudo header followed by the bytes of the chain |
| ChainChksum.InetChksumPseudoPartial | Libraries/Ethernet/lwip/src/core/inet_chksum.c:456-476 | The same, over the first chksum_len bytes |
| ChainChksum.Ip6ChksumPseudo | Libraries/Ethernet/lwip/src/core/inet_chksum.c:343-366 | With IPv6 addresses the result is the RFC 1071 checksum of the 40-byte pseudo header followed by the bytes of the chain |
| ChainChksum.Ip6ChksumPseudoPartial | Libraries/Ethernet/lwip/src/core/inet_chksum.c:491-513 | The same, over the first chksum_len bytes |
| ChainChksum.Header4Checksum | Libraries/Ethernet/lwip/src/core/inet_chksum.c:310-330 | The folded sum of the IPv4 address halves stands for the pseudo header in network order |
| ChainChksum.Header6Checksum | Libraries/Ethernet/lwip/src/core/inet_chksum.c:343-366 | The same for the eight words of two IPv6 addresses |
| ChainChksum.HeaderFields | Libraries/Ethernet/lwip/src/core/inet_chksum.c:310-366 | Each field of both pseudo headers stands where RFC 793 and RFC 8200 put it |
| ChecksumField.InetChksum | Libraries/Ethernet/lwip/src/core/inet_chksum.c:555-558 | The checksum of one buffer is its RFC 1071 checksum at every alignment |
| ChecksumField.StoredChecksumVerifies | Libraries/Ethernet/lwip/src/core/inet_chksum.c:555-558 | With the checksum stored in its zeroed even-aligned field, the checksum of the buffer is exactly 0 |
| ChecksumField.ChangedWord | Libraries/Ethernet/lwip/src/core/inet_chksum.c:555-558 | In a buffer that verifies, one changed word goes unnoticed exactly when it kept its value or went between 0 and 0xFFFF without leaving only zeros |
| ChecksumField.VerifiesIff | Libraries/Ethernet/lwip/src/core/inet_chksum.c:555-558 | A buffer verifies exactly when its word sum is a positive multiple of 65535 |
| Vectors.ExtendPrefix | Libraries/Ethernet/lwip/src/api/api_msg.c:1714-1724 | Advancing the cursor within a vector extends the written prefix of the concatenation by exactly those bytes |
| Vectors.VectorInConcat | Libraries/Ethernet/lwip/src/api/api_msg.c:1676-1679 | Each vector occupies its own stretch of the concatenation |
| Vectors.SafeVectors | Libraries/Ethernet/lwip/src/api/api_msg.c:1702-1711 | No amount of room makes a write stick exactly when all vectors but the last fit in 16 bits |
| Vectors.SticksHere | Libraries/Ethernet/lwip/src/api/api_msg.c:1702-1711 | A write sticks where the rest of its vector is a multiple of 65536 bytes and more vectors follow, and nowhere else |
| Netconn.ApiMsg.Advance | Libraries/Ethernet/lwip/src/api/api_msg.c:1713-1725 | Counting accepted bytes keeps the cursor consistent: offset is the finished vectors plus the offset in the current one, and the written prefix grows by the bytes taken |
| Netconn.Conn.WriteChunk | Libraries/Ethernet/lwip/src/api/api_msg.c:1676-1725 | One turn of the write loop queues exactly the bytes by which offset grows; at the last turn the write has come as far as the room reaches, and does not stick |
| Netconn.Conn.PlanChunk | Libraries/Ethernet/lwip/src/api/api_msg.c:1676-1711 | What a turn offers to TCP, and when it asks for another: the 16-bit comparison takes a rest for finished that is a multiple of 65536 |
| Netconn.Conn.TakeChunk | Libraries/Ethernet/lwip/src/api/api_msg.c:1712-1725 | TCP takes the chunk or none of it, and the cursor moves by what it took |
| Netconn.Conn.WriteOutcome | Libraries/Ethernet/lwip/src/api/api_msg.c:1743-1782 | Whether the write is finished, and with what result: tcp_output is called exactly after ERR_OK and ERR_MEM, ERR_RTE is the result exactly if that call says so, and success only of a blocking write at its length |
| Netconn.Conn.NoteRoom | Libraries/Ethernet/lwip/src/api/api_msg.c:1727-1741 | A nonblocking write that could not take everything asks to be told about new room; the event is raised for that, or when TCP is below its low-water limits, and not otherwise |
| Netconn.Conn.WriteLoop | Libraries/Ethernet/lwip/src/api/api_msg.c:1675-1726 | Unless tcp_write lacks memory, the inner loop never ends exactly when the write will stick (blocking, a connection that may send, and room that ends in front of a non-zero multiple of 65536 bytes of a vector that is not the last); otherwise it takes the write as far as the room reaches |
| Netconn.Conn.WriteMore | Libraries/Ethernet/lwip/src/api/api_msg.c:1640-1803 | One call, from any state of a write: the queued bytes are the first offset bytes; it hangs only when the write will stick, and always then unless memory lacks; a blocking write is answered with success only at its length, and reaches it exactly when the room meets it; a nonblocking one only at offset > 0; the assertions fail exactly on a write that has overrun its length |
| Netconn.Conn.ContinueWrite | Libraries/Ethernet/lwip/src/api/api_msg.c:1675-1803 | The same behind the assertions |
| Netconn.Conn.EndCall | Libraries/Ethernet/lwip/src/api/api_msg.c:1727-1803 | Behind the loop: the message is answered, with what the answer says of the bytes taken, or a blocking one goes on waiting; a blocking one that has come to its length is answered, and no other with success |
| Netconn.Conn.FinishWrite | Libraries/Ethernet/lwip/src/api/api_msg.c:1783-1793 | The message is answered once, and its bytes are added to the stream |
| Netconn.Conn.ContinuedStream | Libraries/Ethernet/lwip/src/api/api_msg.c:1640-1803 | After each call the bytes queued are those of all writes answered, in order, and of the one in progress |
| Netconn.Conn.CloseInternal | Libraries/Ethernet/lwip/src/api/api_msg.c:920-1103 | A full close asks tcp_close and is answered with success if that succeeds, or if it aborts because memory is short and no polls are left; closing one direction asks tcp_shutdown for just that and is answered with its result, ERR_CONN exactly where TCP refuses; a close that is not answered keeps state, message and callbacks for the next poll; the events of the closed directions |
| Netconn.Conn.TryClose | Libraries/Ethernet/lwip/src/api/api_msg.c:955-1010 | The callbacks are taken off, all of them for a full close and the sent callback for the write side; then TCP is asked to close exactly when both directions are closed or the one that is left, and otherwise to shut down just the given one; the result is that of TCP |
| Netconn.Conn.FinishClose | Libraries/Ethernet/lwip/src/api/api_msg.c:1056-1085 | The message is answered once, the control block given up after a full close, and the events of the closed directions raised |
| Netconn.Conn.RestoreCallbacks | Libraries/Ethernet/lwip/src/api/api_msg.c:1086-1098 | A close that is to be tried again has its callbacks back, the sent callback if the write side is closed |
| Netconn.Conn.Complete | Libraries/Ethernet/lwip/src/api/api_msg.c:1056-1061 | The waiting thread gets the result and its signal, and state and current message are cleared |
| Netconn.Conn.DoNewconn | Libraries/Ethernet/lwip/src/api/api_msg.c:680-695 | A new control block exactly if there is memory for one, or ERR_MEM, is answered at once |
| Netconn.Conn.DoListen | Libraries/Ethernet/lwip/src/api/api_msg.c:1449-1525 | Listening asks TCP exactly on a closed control block and is answered with its result, or refused by the state; where there is no mailbox the new control block is closed again |
| Netconn.Conn.Accepted | Libraries/Ethernet/lwip/src/api/api_msg.c:533-600 | The netconn of an accepted connection starts in order with all callbacks in place |
| TcpPcb.Pcb.Setup | Libraries/Ethernet/lwip/src/api/api_msg.c:514-524 | All callbacks belong to the netconn afterwards |
| TcpPcb.Pcb.Write | Libraries/Ethernet/lwip/src/core/tcp_out.c:305-348 | All of the data is taken or none of it, and none when it does not fit or the connection is not open |
| TcpPcb.Pcb.Close | Libraries/Ethernet/lwip/src/core/tcp.c:484-499 | Closing succeeds, or fails for lack of memory on an existing connection |
| TcpPcb.Pcb.Shutdown | Libraries/Ethernet/lwip/src/core/tcp.c:515-552 | Shutting down one direction succeeds and changes the state accordingly, lacks memory, or is refused, by the state of the connection |
| Netconn.Conn.DoWrite | Libraries/Ethernet/lwip/src/api/api_msg.c:1813-1858 | A write message, cut or not, is refused with the right error, or begins: then it hangs exactly when it will stick from its first byte on and memory does not lack, and otherwise is answered or becomes the current message |
| Netconn.Conn.DoClose | Libraries/Ethernet/lwip/src/api/api_msg.c:1934-2004 | A close or shutdown message is refused without a connection, half-way on a listening one, while connecting, and while a write is in progress, with the error of each; any other asks TCP to close or shut down, and is answered with what that says or becomes the current message of a connection, also while a close is in progress, whose message is then lost |
| Netconn.Conn.DoDelconn | Libraries/Ethernet/lwip/src/api/api_msg.c:1113-1206 | Deleting is refused while another message is in progress; otherwise it asks TCP to close, and is answered with success only then or after an abort; every message is answered exactly once |
| Netconn.Conn.BeginClose | Libraries/Ethernet/lwip/src/api/api_msg.c:1981-1992 | A close that begins is answered with what TCP says, or becomes the current message of a connection; a message that it overwrites is lost |
| Netconn.Conn.PollClose | Libraries/Ethernet/lwip/src/api/api_msg.c:363-371 | A poll uses up one of the polls of a close and tries it again |
| Netconn.Conn.TryListen | Libraries/Ethernet/lwip/src/api/api_msg.c:1457-1502 | On a closed control block TCP is asked to listen, and the message answered with its result, or with ERR_MEM without a mailbox |
| Netconn.Conn.Refuse | Libraries/Ethernet/lwip/src/api/api_msg.c:1202-1206 | A message that is refused is answered once, at once, and everything else stays in order |
| Netconn.Conn.DoConnect | Libraries/Ethernet/lwip/src/api/api_msg.c:1350-1415 | A connect message is refused by the state, or answered at once (error or nonblocking), or waits as the current message in state CONNECT |
| Netconn.Conn.TryConnect | Libraries/Ethernet/lwip/src/api/api_msg.c:1378-1400 | A connect message that is taken on is answered with the error of tcp_connect, with ERR_INPROGRESS if that succeeds on a nonblocking netconn, or becomes the current one of a blocking netconn |
| Netconn.Conn.Connected | Libraries/Ethernet/lwip/src/api/api_msg.c:1301-1340 | The connected callback answers the waiting blocking connect, once, and leaves a nonblocking one to its event |
| Netconn.Conn.PollTcp | Libraries/Ethernet/lwip/src/api/api_msg.c:357-388 | A poll takes one from polls_left of a pending close; a write in progress is continued, with its bytes queued in order even when it is answered |
| Netconn.Conn.SentTcp | Libraries/Ethernet/lwip/src/api/api_msg.c:398-425 | Acknowledged data resumes the close in progress, or continues the write with its bytes queued in order even when it is answered |
| Netconn.Conn.AnnounceRoom | Libraries/Ethernet/lwip/src/api/api_msg.c:376-385 | Whoever waits for room is told exactly when TCP is above its low-water limits, and nothing else changes |
| Netconn.Conn.ErrTcp | Libraries/Ethernet/lwip/src/api/api_msg.c:432-505 | A fatal error answers the message in progress, once, and detaches the control block |
| NetconnRuns.Perform | Libraries/Ethernet/lwip/src/api/api_msg.c:293-505 | Every step moves status, waiting message and new message as the state says: refusals with their error; answers and waiting states by request; for a write, room used up as bytes are taken, as far as the room reaches unless TCP lacks memory, and answered with success only when all bytes (blocking) or some (nonblocking) are taken, with ERR_WOULDBLOCK only when none are; what is queued stays the stream of the writes; only a close message that meets a close loses a message |
| NetconnRuns.PerformWrite | Libraries/Ethernet/lwip/src/api/api_msg.c:1813-1858 | A write message with these vectors, this length and flag is refused by the state and changes nothing else but the pending error, or is worked on from its beginning, to the answer that its bytes allow or to waiting |
| NetconnRuns.PerformMessage | Libraries/Ethernet/lwip/src/api/api_msg.c:1113-2004 | Any other message: refused exactly when the state says so, with its error; otherwise what connecting, listening, closing and deleting answer, and in which state they wait |
| NetconnRuns.WriteWorks | Libraries/Ethernet/lwip/src/api/api_msg.c:1640-1803 | A call of lwip_netconn_do_writemore, as work on a request: bytes taken and room used up are the same number; unless TCP lacks memory the write comes as far as the room reaches; it waits only if that is not its length or it sticks; and what the answer says of the bytes |
| NetconnRuns.PerformResume | Libraries/Ethernet/lwip/src/api/api_msg.c:356-425 | A poll or a sent callback: continues a write, or retries a close, using up a poll, to an answer of the kind of its request or to more waiting; it fails an assertion exactly on a write that has overrun its length |
| NetconnRuns.CloseWorks | Libraries/Ethernet/lwip/src/api/api_msg.c:920-1103 | A close that has been tried, as work on its request: what TCP was asked for, its answer as the answer of the message, and the control block given up exactly after a full close |
| NetconnRuns.PerformCallback | Libraries/Ethernet/lwip/src/api/api_msg.c:357-505 | A callback continues a write, uses up a poll of a close, loses the connection or ends the handshake, and answers who waits for that; status and messages afterwards are exact but for how far memory lets a write come and whether a close succeeds |
| NetconnRuns.Run | Libraries/Ethernet/lwip/src/api/api_msg.c:680-2004 | For every sequence of steps from creation: the messages are those that the steps send, in order, and each view of the netconn, with the request, answer and bytes taken of every message, leads to the next by its step; the bytes queued are exactly those taken of the vectors of all messages, in the order sent; every message but the current one is answered, each once, if and only if no close message arrives while a close is in progress; a history ends early only where the thread hangs or an assertion of a write fails |
| NetconnRuns.PerformRecorded | Libraries/Ethernet/lwip/src/api/api_msg.c:293-2004 | A step adds its message to the record and leads from view to view: all other messages but the waiting one keep their answers and bytes, and the bytes of all messages stay those of the finished writes and the one in progress |
| NetconnRuns.QueuedBytes | Libraries/Ethernet/lwip/src/api/api_msg.c:1640-1803 | TCP has queued exactly the bytes taken of all messages, in the order in which these were sent |
| NetconnRuns.CountedStep | Libraries/Ethernet/lwip/src/api/api_msg.c:1783-1793 | The bytes of all messages stay those of the finished writes and of the one in progress, behind which none are taken, across every step |
| NetconnRuns.OtherBytes | Libraries/Ethernet/lwip/src/api/api_msg.c:1813-1858 | A step that meets no write in progress adds the bytes of a write that it takes on, and no others |
| NetconnRuns.WritingBytes | Libraries/Ethernet/lwip/src/api/api_msg.c:357-425 | A step that meets a write in progress takes bytes of that write only, and leaves it the last one of which any are taken |
| NetconnRuns.AnswersTell | Libraries/Ethernet/lwip/src/api/api_msg.c:1640-1803 | In every run the answer to a write can be relied on: after success a write of a netconn that was never nonblocking has all its bytes taken, any other some; after ERR_WOULDBLOCK none has been taken |
| NetconnRuns.MovesTell | Libraries/Ethernet/lwip/src/api/api_msg.c:1743-1782 | No step gives a write an answer that is not true of the bytes taken |
| NetconnRuns.AnsweredOrLost | Libraries/Ethernet/lwip/src/api/api_msg.c:1056-1061 | Of the messages sent each one is answered once, current, or lost; all but the current one are answered exactly when none is lost |
| NetconnRuns.RunFrom | Libraries/Ethernet/lwip/src/api/api_msg.c:357-2004 | The same for every continuation from any netconn in order and on record: no message is lost exactly when no close message meets a close |
| NetconnRuns.RunAccepted | Libraries/Ethernet/lwip/src/api/api_msg.c:533-600 | The same for the netconn of an accepted connection |
| NetconnRuns.CloseIsAnswered | Libraries/Ethernet/lwip/src/api/api_msg.c:356-388 | In every continuation with as many polls as polls_left some step ends a pending close, before any other close message; the close is answered by that step exactly when it is not another close message |
| NetconnRuns.SecondCloseLosesFirst | Libraries/Ethernet/lwip/src/api/api_msg.c:1934-1992 | A witness: a close message in state CLOSE replaces the one that waits, which is then not answered in any continuation |
| WriteRuns.CallOutcome | Libraries/Ethernet/lwip/src/api/api_msg.c:1640-1803 | A call that finds memory and a route answers a blocking write exactly when it finds room to its length, and otherwise leaves it where the room ends, or hangs |
| WriteRuns.FollowStep | Libraries/Ethernet/lwip/src/api/api_msg.c:357-425 | A step of a blocking write in progress: a poll or registered sent callback finds the room that there is, takes the write as far as that reaches, and answers it exactly when that is its length; what the peer acknowledges makes room; any other step leaves it, or is what ends the connection or the blocking mode |
| WriteRuns.FollowWrite | Libraries/Ethernet/lwip/src/api/api_msg.c:1640-1858 | A blocking write over every sequence of steps: what its calls find is a function of the room at the beginning and the steps; as long as memory, route and connection last and the mode stays blocking, it is answered with success, with all bytes taken, if and only if some call finds room that takes it to its length before any finds more and before any sticks |
| WriteRuns.OverrunIsNotAnswered | Libraries/Ethernet/lwip/src/api/api_msg.c:1640-1657 | A write that has overrun its length is answered by nothing but an error of the connection, in every continuation, until an assertion fails |
| Vectors.LongFirstSticks | Libraries/Ethernet/lwip/src/api/api_msg.c:1702-1711 | Vectors of which the first is a non-zero multiple of 65536 bytes and not the last stick where nothing is written yet |
| WriteRuns.HangsAtOnce | Libraries/Ethernet/lwip/src/api/api_msg.c:1702-1726 | A witness: a first vector of a multiple of 65536 bytes, and no room, hang the thread |
| WriteRuns.HangsLater | Libraries/Ethernet/lwip/src/api/api_msg.c:1702-1726 | A witness: one byte more, and room for one byte, hang it as well, unless memory lacks, although the write does not begin stuck |
| WriteRequest.SumSizes | Libraries/Ethernet/lwip/src/api/api_lib.c:1019-1028 | The wrap-around test fires exactly when the exact total does not fit in 32 bits |
| WriteRequest.PrepareWrite | Libraries/Ethernet/lwip/src/api/api_lib.c:997-1042 | The write is refused exactly when the total exceeds 32 bits or a count is needed and not taken; nothing is sent for size 0; otherwise the size is the total, cut at SSIZE_MAX |
| WriteRequest.MessageFor | Libraries/Ethernet/lwip/src/api/api_lib.c:1044-1062 | The message, cut at SSIZE_MAX or not, starts in the state that the write protocol requires, with all vectors, for exactly the size summed up, and with the flag of the caller alone |
| WriteRuns.FollowCutWrite | Libraries/Ethernet/lwip/src/api/api_lib.c:1028-1040 | A blocking write of more than SSIZE_MAX bytes: as long as memory, route and connection last, it is answered with success if and only if the steps make some call find room for SSIZE_MAX bytes in all and not one more, before any finds more, or sticks |
| WriteRuns.CutWriteOverruns | Libraries/Ethernet/lwip/src/api/api_lib.c:1028-1040 | A witness: a buffer of more than SSIZE_MAX + 65535 bytes, of which everything is acknowledged before every poll, so that there is room for 65535 bytes, comes to stand behind SSIZE_MAX and is not answered, unless memory or a route lacks |
| RecvTcp.Receiver.RecvData | Libraries/Ethernet/lwip/src/api/api_lib.c:579-673 | A fetch takes the next pbuf of the stream or reports why there is none: an orderly close only when all data has been taken, the stored error, or that there is nothing yet; it waits only if nothing is there and the caller may wait |
| RecvTcp.Receiver.TakeMessage | Libraries/Ethernet/lwip/src/api/api_lib.c:640-672 | A fetched message is the next pbuf or ends the stream, behind which there is no data |
| RecvTcp.Receiver.RecvDataTcp | Libraries/Ethernet/lwip/src/api/api_lib.c:703-769 | A FIN met while data is being returned is kept back for the next call; a pending FIN implies that no data is left over |
| RecvTcp.Receiver.HandleFin | Libraries/Ethernet/lwip/src/api/api_lib.c:752-766 | With all data taken, ERR_CLSD while the connection is there, and otherwise the stored error or ERR_RST |
| RecvTcp.Receiver.TcpRecvd | Libraries/Ethernet/lwip/src/api/api_msg.c:1589-1608 | TCP is credited with exactly the length, in pieces of 16 bits, while it is there |
| RecvTcp.Receiver.DataArrives | Libraries/Ethernet/lwip/src/api/api_msg.c:293-345 | A pbuf that is posted extends the stream and what is unread |
| RecvTcp.Receiver.ErrorArrives | Libraries/Ethernet/lwip/src/api/api_msg.c:432-505 | An error ends the stream behind the data posted before |
| RecvTcp.Receiver.LwipRecvTcp | Libraries/Ethernet/lwip/src/api/sockets.c:920-1018 | The bytes returned are the next ones of the stream and TCP is credited with exactly them; a peek consumes nothing; only when everything posted has been returned a call returns no data, and says why: the first report of an end is the end of the stream for a FIN while the connection is there, and otherwise the stored error unless that has been lost; the exact condition under which it is lost; a call waits only if it may and there is nothing to return |
| RecvTcp.Receiver.ReceiveUpTo | Libraries/Ethernet/lwip/src/api/sockets.c:920-1010 | The loop: it ends with at least a byte of data, at most what is asked for, or with the reason why there is none |
| RecvTcp.Receiver.NothingThere | Libraries/Ethernet/lwip/src/api/api_lib.c:598-612 | An empty mailbox: the stored error is taken, or ERR_CONN, or ERR_WOULDBLOCK while the connection is there |
| RecvTcp.EndMeans | Libraries/Ethernet/lwip/src/api/sockets.c:959-963 | What a report means: the end of the stream only for a FIN or an error of that kind, and as the first report for every FIN while the connection is there |
| RecvTcp.EmptyEnds | Libraries/Ethernet/lwip/src/api/api_lib.c:598-612 | Taking the stored error from an empty mailbox loses it exactly if neither it nor a FIN has been posted and the caller does not report it |
| RecvTcp.FinEnds | Libraries/Ethernet/lwip/src/api/api_lib.c:752-766 | A FIN that has been fetched is reported as such while the connection is there, and as the stored error otherwise |
| RecvTcp.Receiver.Consume | Libraries/Ethernet/lwip/src/api/sockets.c:992-1006 | The first bytes of the held pbuf are returned and the rest is kept for the next call |
| RecvTcp.Receiver.Refill | Libraries/Ethernet/lwip/src/api/sockets.c:940-966 | Left-over data is used before new data is fetched |
| RecvTcp.Receive | Libraries/Ethernet/lwip/src/api/sockets.c:920-1018 | Over any sequence of receive calls, going on after an end of stream, with arrivals before and in between: each call returns the next bytes of the stream, at most as many as asked for, or its end or an error other than having to wait, when all of the stream has been returned; the first such report is the end of the stream if the connection is still there at last, and otherwise that or the stored error, or ERR_CONN for a lost one; the end of the stream is returned only for a FIN or an error of that kind; one that returns no data is nonblocking or comes when the stream has ended, and never before all that was there has been returned; the bytes of the consuming calls followed by what is left equal the bytes posted, and the credit equals the bytes returned |
| RecvTcp.AppendFailure | Libraries/Ethernet/lwip/src/api/api_msg.c:432-505 | What the error callback posts behind the data leaves the mailbox orderly |
| RecvTcp.NoDataLeft | Libraries/Ethernet/lwip/src/api/api_msg.c:293-345 | Once the end has been taken from an orderly mailbox no data is left in it |
| RecvTcp.TakeFirst | Libraries/Ethernet/lwip/src/api/api_lib.c:579-640 | Taking the first message of an orderly mailbox leaves it orderly and tells whether it was the end |
| SocketTable.Table.SockIncUsed | Libraries/Ethernet/lwip/src/api/sockets.c:335-354 | A reference is taken exactly when no free is pending, and fd_used stays the number of references |
| SocketTable.Table.DoneSocket | Libraries/Ethernet/lwip/src/api/sockets.c:377-401 | Dropping a reference detaches the netconn exactly when it was the last one of a slot to be freed |
| SocketTable.Table.FreeSocketLocked | Libraries/Ethernet/lwip/src/api/sockets.c:548-567 | With other references left the free is deferred; otherwise the slot is emptied |
| SocketTable.Table.FreeSocket | Libraries/Ethernet/lwip/src/api/sockets.c:594-611 | Closing drops the caller's reference and detaches the netconn exactly when no other reference is left |
| SocketTable.Table.AllocSocket | Libraries/Ethernet/lwip/src/api/sockets.c:501-541 | Undisturbed, the first slot without netconn and references is taken, and none only when there is none |
| SocketTable.AllocAmong | Libraries/Ethernet/lwip/src/api/sockets.c:501-541 | While other threads run between its turns, the first slot that is free when its turn comes is taken, and none only when none was |
| SocketTable.Table.TakeSlot | Libraries/Ethernet/lwip/src/api/sockets.c:509-536 | A slot without netconn and references is taken with one reference; any other is left alone |
| SocketTable.MoveOut | Libraries/Ethernet/lwip/src/api/sockets.c:548-567 | Detaching one slot's netconn keeps each netconn in one slot or detached once |
| SocketTable.MoveIn | Libraries/Ethernet/lwip/src/api/sockets.c:501-541 | Placing a new netconn keeps each netconn in one slot or detached once |
| SocketTable.Perform | Libraries/Ethernet/lwip/src/api/sockets.c:333-611 | The exact state that each step leads to; a referenced slot keeps its netconn, a netconn is detached only by the last reference, and only unreferenced slots are taken |
| SocketTable.Run | Libraries/Ethernet/lwip/src/api/sockets.c:500-611 | Every interleaving comes to the state that its steps say; in it fd_used is the number of references and each netconn placed is in one slot or has been detached exactly once |
| AcceptEvents.RunCounts | Libraries/Ethernet/lwip/src/api/sockets.c:2487-2529 | In every run, counted before accept + rcvevent + replays owed + event in flight + what the hand-over drops is the number of callbacks that began minus the number of acknowledgements in the schedule, up to multiples of 65536 |
| AcceptEvents.ConservedExactly | Libraries/Ethernet/lwip/src/api/sockets.c:663-680 | In every run and at every moment no event of the schedule is lost or doubled exactly when the number of events handed over is not negative in 16 bits and what the socket has to count fits in 16 bits |
| AcceptEvents.NoEventLost | Libraries/Ethernet/lwip/src/api/sockets.c:663-680 | In every run in which accept has returned and no callback is running, rcvevent is the number of events signalled and not acknowledged in the schedule exactly when the number handed over is not negative in 16 bits and that number fits in 16 bits |
| AcceptEvents.StepsGoOn | Libraries/Ethernet/lwip/src/api/sockets.c:2487-2529 | In every run two locked sections end any callback, and accept can always take its next step, so that no event has to wait for ever |
| AcceptEvents.LateAcceptIsExact | Libraries/Ethernet/lwip/src/api/sockets.c:670-680 | Witnesses: n events before an undisturbed hand-over all reach the socket exactly when n is at most 32767 |
| AcceptEvents.BurstCounts | Libraries/Ethernet/lwip/src/api/sockets.c:2493-2509 | Early events count the socket number down, one by one |
| AcceptEvents.ReplaysCount | Libraries/Ethernet/lwip/src/api/sockets.c:674-680 | The replay loop adds what it owes to rcvevent |
| CStrings.Strnicmp | Libraries/Ethernet/lwip/src/core/def.c:163-190 | lwip_strnicmp returns 0 exactly when the first len characters agree up to the case of letters |
| DnsName.PutName | Libraries/Ethernet/lwip/src/core/dns.c:791-809 | The encoder fills exactly strlen + 2 bytes, with the labels of the name each after its length and a final zero |
| DnsName.PutLabel | Libraries/Ethernet/lwip/src/core/dns.c:804-806 | One label is written behind its length |
| DnsName.ScanLabel | Libraries/Ethernet/lwip/src/core/dns.c:795-799 | A label ends at the next dot or at the end of the name |
| DnsName.CompareLabel | Libraries/Ethernet/lwip/src/core/dns.c:669-682 | One label agrees with the query, up to case, exactly when the loop over its characters passes |
| DnsName.TextMatches | Libraries/Ethernet/lwip/src/core/dns.c:669-682 | The characters of a label are accepted exactly when each is that of the query, up to case |
| DnsName.OtherNameCompares | Libraries/Ethernet/lwip/src/core/dns.c:651-698 | Any encoded name that is readable, the query's or another one, is accepted, up to its end, exactly when its characters are those of the query, up to case |
| DnsName.EncodedBytes | Libraries/Ethernet/lwip/src/core/dns.c:791-809 | Each byte of an encoded name: characters one place behind their own, and in front of each label its length, up to the next dot or the end |
| DnsName.EncodeExample | Libraries/Ethernet/lwip/src/core/dns.c:791-809 | An example, byte by byte |
| DnsName.DnsCompareName | Libraries/Ethernet/lwip/src/core/dns.c:651-698 | The comparison accepts exactly an uncompressed name within the packet whose label characters agree with the query, and returns the offset behind it |
| DnsName.DnsSkipName | Libraries/Ethernet/lwip/src/core/dns.c:708-739 | Skipping returns the offset behind a name or its compression pointer, or 0xFFFF when it does not lie within the packet |
| DnsName.AcceptedIsSkipped | Libraries/Ethernet/lwip/src/core/dns.c:651-739 | Whenever the comparison accepts a name, skipping it leads to the same offset |
| DnsName.ReadBack | Libraries/Ethernet/lwip/src/core/dns.c:651-698 | An encoded name is accepted up to its end exactly when no label is as long as a pointer mark and only the first is empty; otherwise the comparison fails or stops early |
| DnsName.EncodedNameCompares | Libraries/Ethernet/lwip/src/core/dns.c:651-809 | dns_compare_name on the name that dns_send wrote returns the offset just behind it exactly when the name is readable in that sense |
| DnsPacket.BuildQuery | Libraries/Ethernet/lwip/src/core/dns.c:776-818 | The packet is a standard query: identifier, recursion desired, one question for an Internet address |
| DnsPacket.QueryAsks | Libraries/Ethernet/lwip/src/core/dns.c:776-818 | The query has its exact size, identifier, flags and counts, the encoded name, and type and class of an Internet address behind it |
| DnsPacket.OwnerSkipped | Libraries/Ethernet/lwip/src/core/dns.c:708-739 | Skipping an owner name of labels and an optional pointer finds its end exactly when the name is not the root |
| DnsPacket.ScanAnswers | Libraries/Ethernet/lwip/src/core/dns.c:1268-1333 | The loop over the answers finds the first Internet address record, or the reason to ignore the packet |
| DnsPacket.AnswersRead | Libraries/Ethernet/lwip/src/core/dns.c:1268-1333 | From every list of records in which the root owns none up to the first address the loop yields that address and its time to live |
| DnsPacket.JudgeReply | Libraries/Ethernet/lwip/src/core/dns.c:1198-1265 | A reply counts only if it is a response with one matching question from the right server; then by its error code or its answers |
| DnsPacket.EchoJudged | Libraries/Ethernet/lwip/src/core/dns.c:1221-1265 | A reply that echoes the question is judged by its flags and answers exactly when the name is readable, and ignored otherwise |
| DnsPacket.QuestionJudged | Libraries/Ethernet/lwip/src/core/dns.c:1198-1265 | A packet with any readable question is ignored unless it is a response, with one question, from the server that was asked, for an Internet address and with the characters of the query; then it is judged by error code and answers |
| DnsPacket.OtherNameIgnored | Libraries/Ethernet/lwip/src/core/dns.c:1221-1230 | A packet about a name that differs from the query in one character is ignored |
| DnsPacket.ReplyUnderstood | Libraries/Ethernet/lwip/src/core/dns.c:1170-1333 | Round trip: a reply with any list of records yields the first address in it, NoAnswer without one, and an error code as such, exactly for readable names |
| DnsEntries.PerServerClosed | Libraries/Ethernet/lwip/src/core/dns.c:1068-1089 | A server is given 1 + R(R-1)/2 ticks |
| DnsEntries.TickSpends | Libraries/Ethernet/lwip/src/core/dns.c:1067-1103 | A tick costs a waiting entry one of its remaining ticks, across retries and server changes |
| DnsEntries.WaitsExactly | Libraries/Ethernet/lwip/src/core/dns.c:1067-1103 | With all servers set an unanswered entry is still waiting after n ticks exactly when n is less than its remaining ticks |
| DnsEntries.ErrorChangesServer | Libraries/Ethernet/lwip/src/core/dns.c:1250-1266 | An error reply moves the entry to the next server at once and lowers its remaining ticks |
| DnsEntries.SendsSomewhere | Libraries/Ethernet/lwip/src/core/dns.c:748-845 | Queries go to servers that are set only, a new entry asks the first one, and an entry whose server is gone is given up |
| DnsEntries.CachedExactly | Libraries/Ethernet/lwip/src/core/dns.c:1104-1112 | A completed entry keeps name and address for exactly its time to live, in ticks, and is unused afterwards |
| DnsEntries.AddressKept | Libraries/Ethernet/lwip/src/core/dns.c:1290-1300 | The address lies in memory as it does in the packet |
| DnsEntries.AgeCounts | Libraries/Ethernet/lwip/src/core/dns.c:1414-1446 | The age of an entry is the number of requests that have filled entries since, so that the oldest is the one to fill |
| DnsEntries.CallingConserves | Libraries/Ethernet/lwip/src/core/dns.c:965-972 | Calling the callbacks of an entry turns waiting ones into called ones and loses none |
| DnsEntries.NoticeOfEach | Libraries/Ethernet/lwip/src/core/dns.c:965-972 | Each callback registered for the entry is called with the entry's result |
| DnsEntries.ReportedBalanced | Libraries/Ethernet/lwip/src/core/dns.c:942-972 | Registered and called callbacks together stay the accepted ones when an entry stops waiting |
| DnsEntries.ReportedRequests | Libraries/Ethernet/lwip/src/core/dns.c:942-972 | Afterwards every registered callback still belongs to a waiting entry |
| DnsEntries.ApartUpdate | Libraries/Ethernet/lwip/src/core/dns.c:1055-1061 | Waiting entries keep distinct identifiers and names when one of them changes |
| DnsEntries.SweepOne | Libraries/Ethernet/lwip/src/core/dns.c:1124-1131 | One entry of the sweep: exactly the callbacks of an entry that gives up are released and told |
| DnsEntries.DrawnDiffer | Libraries/Ethernet/lwip/src/core/dns.c:105-106 | The first n draws of the 16-bit counter are n different values |
| DnsEntries.FewIds | Libraries/Ethernet/lwip/src/core/dns.c:1008-1014 | There are at most as many identifiers in use as entries |
| DnsEntries.FewerIds | Libraries/Ethernet/lwip/src/core/dns.c:1008-1014 | An entry that is not asked for, such as a new one, leaves fewer identifiers in use than entries |
| DnsEntries.SameFree | Libraries/Ethernet/lwip/src/core/dns.c:1000-1018 | Which identifier is the first free one does not depend on an entry that is not asked for |
| DnsResolver.Resolver.CallFound | Libraries/Ethernet/lwip/src/core/dns.c:942-972 | All callbacks of the entry are called in order with its name and result, and their requests are freed; others are untouched |
| DnsResolver.Resolver.CreateTxid | Libraries/Ethernet/lwip/src/core/dns.c:1000-1018 | The identifier is the first value of the counter that no waiting entry has, found within as many draws as entries are waiting, and one; with a new entry in the table, as it is called, within DNS_TABLE_SIZE draws |
| DnsResolver.Resolver.DnsSend | Libraries/Ethernet/lwip/src/core/dns.c:748-845 | With the server gone the entry is given up and its callbacks told; otherwise the query for it goes to its server |
| DnsResolver.Resolver.DnsCheckEntry | Libraries/Ethernet/lwip/src/core/dns.c:1047-1118 | The whole effect on entry, callbacks and packets, keeping the invariant |
| DnsResolver.Resolver.RetryEntry | Libraries/Ethernet/lwip/src/core/dns.c:1067-1103 | The entry being asked for counts down, and at the end retries, changes its server or gives up |
| DnsResolver.Resolver.DnsTmr | Libraries/Ethernet/lwip/src/core/dns.c:395-400 | A tick checks every entry once; exactly the callbacks of entries that give up are told |
| DnsResolver.Resolver.DnsCorrectResponse | Libraries/Ethernet/lwip/src/core/dns.c:1137-1164 | The entry is completed with its capped time to live, or freed when that is 0, and its callbacks get the address |
| DnsResolver.Resolver.DnsRecv | Libraries/Ethernet/lwip/src/core/dns.c:1170-1363 | A packet concerns the one waiting entry with its identifier; entry, callbacks and packets change exactly as the verdict on the packet says |
| DnsResolver.Resolver.EndRequest | Libraries/Ethernet/lwip/src/core/dns.c:1268-1353 | An answer completes the entry; an error or a reply without one gives it up; its callbacks are told |
| DnsResolver.Resolver.FindAsking | Libraries/Ethernet/lwip/src/core/dns.c:1186-1190 | The waiting entry with the identifier is found exactly when there is one |
| DnsResolver.Resolver.AskNextServer | Libraries/Ethernet/lwip/src/core/dns.c:1256-1266 | An error reply makes the entry ask its next server at once |
| DnsResolver.Resolver.DnsLookup | Libraries/Ethernet/lwip/src/core/dns.c:602-628 | The address of the first completed entry of that name is returned, exactly when there is one |
| DnsResolver.Resolver.FindEntry | Libraries/Ethernet/lwip/src/core/dns.c:1414-1446 | The entry to fill is an unused one or else the oldest completed one; none exactly when there is neither |
| DnsResolver.Resolver.FindDuplicate | Libraries/Ethernet/lwip/src/core/dns.c:1386-1410 | A waiting entry of the same name is found together with a free request |
| DnsResolver.Resolver.FindFree | Libraries/Ethernet/lwip/src/core/dns.c:1451-1456 | A free request is found exactly when there is one |
| DnsResolver.Resolver.FillEntry | Libraries/Ethernet/lwip/src/core/dns.c:1466-1478 | The entry becomes new with the name, the request refers to it, and the invariant holds |
| DnsResolver.Resolver.DnsEnqueue | Libraries/Ethernet/lwip/src/core/dns.c:1375-1503 | A request joins the entry that asks for the name or fills an entry and asks; ERR_MEM exactly when requests or entries are exhausted, and then nothing changes |
| DnsResolver.Resolver.DnsGethostbyname | Libraries/Ethernet/lwip/src/core/dns.c:1547-1629 | Which of the five results is returned; a request in progress is registered and its callback not called before the return |
| DnsResolver.Resolver.DnsSetserver | Libraries/Ethernet/lwip/src/core/dns.c:361-371 | Only the given server changes, and the invariant holds whatever it becomes |
| DnsResolver.WaitingOrCalled | Libraries/Ethernet/lwip/src/core/dns.c:941-996 | At every moment each accepted callback either waits on an entry that is new or being asked for, or has been called; the two counts add up |
| DnsResolver.AnsweredInTime | Libraries/Ethernet/lwip/src/core/dns.c:1046-1118 | No callback accepted waits longer than all servers together are given |
| DnsResolver.Perform | Libraries/Ethernet/lwip/src/core/dns.c:361-1629 | Every step leads from view to view: a lookup returns its result and joins or fills the entry and request that the table determines; a tick checks every entry once, tells exactly the callbacks of those that give up, and sends exactly the queries that are due; a packet concerns the entry with its identifier and changes it by the verdict; a server is set |
| DnsResolver.PerformLookup | Libraries/Ethernet/lwip/src/core/dns.c:1375-1629 | Which result a lookup has, by table, requests and servers, and the exact state it leaves; a new entry gets the first identifier behind the counter that no waiting entry has |
| DnsResolver.PerformTick | Libraries/Ethernet/lwip/src/core/dns.c:395-400 | The exact state that a tick leaves, with the queries that it sends in order |
| DnsResolver.PerformPacket | Libraries/Ethernet/lwip/src/core/dns.c:1170-1363 | The exact state that a packet leaves, by the entry that it concerns |
| DnsResolver.Run | Libraries/Ethernet/lwip/src/core/dns.c:361-1629 | In every run, whose steps lead from view to view with their results: the callbacks accepted are exactly those of the lookups answered with ERR_INPROGRESS, each with its time; and each accepted callback, before the run or in it, has been called once DNS_MAX_SERVERS x (1 + R(R-1)/2) ticks have passed since it was accepted |
| DnsResolver.CachedInRuns | Libraries/Ethernet/lwip/src/core/dns.c:1104-1112 | In every run a completed entry gives its address for exactly its time to live, in ticks, and is unused afterwards, until it is filled anew |
| DnsResolver.StepAges | Libraries/Ethernet/lwip/src/core/dns.c:1047-1118 | A step leaves a completed or unused entry alone but for its age, unless it fills the entry |
| DnsResolver.ReplyResolves | Libraries/Ethernet/lwip/src/core/dns.c:1136-1164 | A reply to an entry's query completes it with the first address, reports that address, and caches it for exactly its time to live or the maximum |
| Itoa.LwipItoa | Libraries/Ethernet/lwip/src/core/def.c:199-239 | The buffer holds the decimal text with its terminator exactly when it fits, and the empty string otherwise; nothing behind bufsize changes |
| Itoa.WriteDigits | Libraries/Ethernet/lwip/src/core/def.c:216-225 | From the end of the buffer the last digits are written; what is not written yet is the rest of the number |
| Itoa.MoveDigits | Libraries/Ethernet/lwip/src/core/def.c:236-238 | The digits and the terminator come to stand behind the sign |
| Itoa.DecimalReadsBack | Libraries/Ethernet/lwip/src/core/def.c:198-239 | The text parses back to the number and has no superfluous leading zero or sign |
| Itoa.CanonicalIsDecimal | Libraries/Ethernet/lwip/src/core/def.c:198-239 | Every canonical numeral is the text of the number that it denotes |
| CanFrames.FramesCarry | examples/can-ethernet.c:147-172 | The frames carry exactly the bytes in order; all but the last are full, the last has 1 to 8 bytes, and there are ceil(n/8) |
| CanFrames.PackedUnique | examples/can-ethernet.c:147-172 | There is no other way to pack the bytes like that |
| CanFrames.Repack | examples/can-ethernet.c:147-172 | The frames sent for a chain are those of its concatenated bytes, however it is split |
| CanFrames.RepackPbuf | examples/can-ethernet.c:155-166 | One pbuf: full frames and the bytes waiting for a frame together carry everything read so far |
| CanFrames.EthToCAN1 | examples/can-ethernet.c:340-374 | The frames are those of the payload exactly when it is not empty; for an empty one a frame of the eight bytes behind it is sent |
| CanFrames.Session.Send | examples/can-ethernet.c:277-320 | Whole pbufs are echoed in order and credited, exactly those that TCP takes; echoed and held bytes together stay the same |
| CanFrames.Session.Recv | examples/can-ethernet.c:102-200 | The exact new state in every branch: what is held, echoed, kept, trashed, sent as frames and closed; frames go out exactly for a chain that arrives in good order while nothing is held |
| CanFrames.Session.Continue | examples/can-ethernet.c:216-275 | The exact new state: held pbufs are echoed on; a session that is closing and has nothing left is closed |
| CanFrames.Run | examples/can-ethernet.c:102-321 | Every run until the close comes to the state that its events say; in it, what was kept is what was echoed followed by what is held, and the credit covers what was echoed or trashed |
| CanFrames.SmoothRun | examples/can-ethernet.c:102-200 | Without errors and closes all bytes received are kept, and the frames are those of the chains that came while nothing was held |
| CanFrames.TakenExactly | examples/can-ethernet.c:277-320 | The pbufs taken at a time are those that fit and are accepted, and the next one is not |
| CanFrames.KeptIsEchoedOrHeld | examples/can-ethernet.c:102-321 | In every run what has been kept is what has been echoed followed by what is held |
| CanFrames.EchoedAtLast | examples/can-ethernet.c:216-320 | Once TCP takes all that it is offered, everything received in a smooth run has been echoed, and the close of the peer closes the session, not before |
| CanFrames.ClosedIsDone | examples/can-ethernet.c:102-275 | A session that is closed holds nothing, and its peer has closed |
| CanFrames.HeldIsNotFramed | examples/can-ethernet.c:142-181 | A witness: of two chains in a row the second is held, and never becomes frames |

## Left out

- NetconnRuns.Run: one blocked caller per netconn; the full-duplex branches of `api_msg.c`, linger, send timeouts, UDP and RAW netconns, accept mailboxes and `netconn_drain` are not modelled. A history ends where the thread hangs or an assertion of a write fails; it goes on where that of a second close fails. The room that the peer makes is part of the steps; when TCP lacks memory or finds no route is the choice of the environment and shows in the record of what TCP was asked.
- TcpPcb.Pcb.Close: follows the documentation of `tcp_close`, by which ERR_MEM is possible on a connection; `tcp_close_shutdown_fin` (`core/tcp.c:449-457`) reports success in that case and retries by itself, so that the retries of a close that are modelled here belong to TCP layers that keep to the documentation.
- TcpPcb.Pcb.Shutdown: the same.
- Netconn.Conn.WriteMore: the assertions of a write end a history, although those of this port do not stop (`Libraries/Ethernet/lwip/port/include/arch/cc.h:120-129`). What happens behind them is not modelled: a write that has overrun its length goes on, and one whose vectors are used up wraps `vector_cnt` around and steps past the array of vectors.
- WriteRuns.CutWriteOverruns: the calls of the witness are polls; a sent callback continues a write in the same way.
- PSH and MORE flags of `tcp_write`, the polling interval of `tcp_poll`, and the effect of events on waiting threads.
- RecvTcp.Receiver.LwipRecvTcp: receive timeouts, RCVBUF accounting, the RCVMINUS event raised per fetch, and the NETCONN_NOAUTORCVD flag off are not modelled.
- SocketTable.Table.SockIncUsed: `fd_used` is an 8-bit counter; a 256th reference to one slot, which the source only asserts against, is not modelled. The assertion on `fd_free_pending` in `sock_inc_used_locked` is not claimed as an invariant.
- SocketTable.Table.AllocSocket: no other thread runs between its turns; SocketTable.AllocAmong lets them.
- AcceptEvents.NoEventLost: `conn->socket` is an unbounded integer; the error path of the peer lookup in `lwip_accept` is not modelled.
- DnsName.DnsCompareName: accepting is not claimed to mean that the names are equal, since separators and the end of the query are stepped over without comparison.
- DnsName.EncodedNameCompares: a name that ends at offset 0xFFFF is left out, as that offset is the failure value; dns_send never writes one.
- DnsPacket.AnswersRead: lists of records in which the root owns one up to the first address, for which `dns_skip_name` fails.
- DnsResolver.Run: random transaction identifiers and source ports, mDNS, IPv6 and its fall-back, and callbacks that re-enter the resolver are not modelled; time is counted in timer ticks. The results of `udp_sendto` and the debug output have no effect on the state and are left out.
- DnsResolver.Resolver.DnsGethostbyname: parsing of numeric addresses, `localhost` and local host lists enter as one parameter; whether the UDP control block exists is not modelled.
- Itoa.LwipItoa: INT_MIN, whose negation overflows.
- StandardChksum.Chksum1: buffers of more than 0x20002 bytes, whose sums wrap (`StandardChksum.AccumulatorReach`); the callers pass at most 0xFFFF.
- `lwip_chksum_copy`, `lwip_strnstr`, the `ip_*` dispatchers: forwarding or plain copying.
- CanFrames.Session.Recv: delays, retry counters and freeing of pbufs; a null `es` argument.
- `EthToCAN2`, `EthToCAN3`, the drivers and board code, the remaining socket calls, `select` and `poll`: dispatch or register access.
