# Tachyon: a verified model of the worker

Tachyon is an HTTP server whose worker threads each run an io_uring completion loop, a hand-written
AVX2 request scanner and a fixed response builder. This project models one worker in Dafny and proves
what its code keeps. `dafny verify dfyconfig.toml` checks all of it.

## How it is laid out

| file | what it holds |
|---|---|
| `Bytes`, `Bits`, `Simd` | bytes; machine words with their bitwise operators, digit by digit; 32-byte vectors and their masks |
| `Scanner`, `Window`, `Http` | the request scanner, the 32-byte window parser, the pipelined parser and its round trip |
| `Trim`, `Shift` | the vector trims and the three packet shifts, and what a poll sees after a shift |
| `Packets` | the Ethernet/IPv4/TCP walker and the frame encoding it inverts |
| `ServerInternals` | the 64-bit user data codec |
| `Lake`, `Response` | append buffers, routing, the exact response bytes, and a client that takes the stream apart |
| `Machine` | the worker as a state machine: what each handler does to tables, buffers and rings |
| `Invariants`, `Histories`, `Preserved` | the invariants of every reachable state, and that every handler keeps them |
| `Runs` | the events of a run: the loop cut where the kernel can interleave, and the kernel's own steps |
| `Effects` | what the steps of the loop do, field by field and entry by entry |
| `Guarantees` | what holds after every run: output, buffers, tables, rates, capacity |
| `Accounts` | what every step pushes, and the accounts of whole runs: buffers, connections, rates, and output in both modes |
| `Descriptors` | when a descriptor number still is the socket it was taken for, step by step and over runs |
| `Progress` | when the worker can take its next step, and that a worker that stands still does so for good |
| `Witnesses`, `Stalls` | five runs in which the worker does what it should not |
| `Server` | the class whose methods update the fields in place, each proved to do what `Machine` says |

The worker is modelled twice on purpose. `Server` has the source's shape: fields that methods reassign,
a hot cache that is an array, loops over requests, clients and completions. `Machine` says in one record update
what each method does. The methods are proved equal to those functions (`Iterate`: one turn of the loop, with whatever
the kernel does between its steps, is a run of events), and the theorems in `Guarantees` and `Descriptors` are about all
runs of the functions.

## What is assumed

- The kernel writes only receive buffers it owns, reports lengths between 1 and 7168 for packets, gives a new
  connection a descriptor that is not open, delivers no packet for a client that is closed or that a waiting
  completion closes, and acknowledges offered buffers with success. It may at any time take entries, report errors,
  end a stream, and repeat a completion that a real kernel gives once: the theorems hold for those runs too, and
  the runs in `Witnesses` do without them.
- A send entry stands for a snapshot of its bytes. Nothing is claimed about the wire.
- The ring has room for set-up. After that a bulk push that does not fit ends the run: the source retries it forever
  (`release_buffers`) or panics (`wideband_send`), so there is no next state, and `Progress` says exactly when that
  happens. A single push that finds no room loses its entry, as in the source.
- Fewer than 2^32 connections a worker, because the table index is cut to 32 bits in the user data.
- The answers to a packet fit behind what is pending for its client. The source writes them without a check;
  `Guarantees.FewUnflushedFit`, `Guarantees.AnswersFitIff` and `Witnesses.OverflowReachable` say when they fit and that they need not.
- The slot table never reuses an index. The JSON encoder writes its 27-byte literal. A date is 35 bytes.
- The release profile: shift counts wrap to five bits instead of panicking.

## Where the code and its promises differ

- A request start is seen if and only if it lies below the scan's end, which is up to 33 bytes short of the packet's
  (`Scanner.StartsExact` at `ScanEnd`), so it can go unseen even when its 32-byte window still fits (`Scanner.TailStartMissed`).
- When the first space of a window is its last byte, the generic branch shifts by 32. The count wraps, and the path
  slice begins where the window ends, outside the packet when fewer than 31 bytes follow (`Http.PathLeavesIff`, `Http.PathCanLeaveBuffer`). Such a request is
  always answered as not found, whatever lies there (`Guarantees.OverrunNotRouted`).
- `shift_safe` erases a packet that fills its buffer and keeps what was in the gap (`Shift.SafeShiftAgrees`).
- Closing an id that is gone closes descriptor 0xFF, whoever has it. Closing a client while the kernel has a send of it
  still to take leaves the response to whoever gets the descriptor next. `Descriptors.SocketsStep` says that these are
  the only two ways in which a step can part numbers from sockets, and exactly when each does;
  `Witnesses.StaleCloseReachable` and `Witnesses.LateSendReachable` are runs where they do.
- An output buffer of 21504 bytes holds 96 answers of any kind and not 97 (`Guarantees.AnswersFitIff`). Two packets that
  arrive together can ask for more (`Witnesses.OverflowReachable`).
- The worker can come to a stand. In every reachable state it can take its next step if and only if what that step pushes
  at once finds room in the ring (and, as assumed above, the reply fits and the id does; `Progress.NextStepIff`). The
  kernel's head is read only at a sync, so a worker that cannot take it now never can (`Progress.NowOrNever`). With 4096 connections behind one request the hoarded
  buffer is pushed in vain forever (`Stalls.StuckReachable`), or the flush panics (`Stalls.AbortReachable`).

Response streams are self-delimiting exactly when the date line does not read as a Content-Length header
(`Response.SelfDelimitingIff`). `nano_http_date` writes a `Date:` line, which does not; `nano_clock` is not part of this model.

## Model

| member | source | states |
|---|---|---|
| Bits.TrailingZerosIsLowest | src/library/utils/http.rs:111 | `trailing_zeros` of a nonempty mask is set, and no lower bit is |
| Bits.ClearLowestBit | src/library/utils/http.rs:114 | `bits &= bits - 1` removes the lowest set bit, keeps every other, and makes the word smaller |
| Simd.MoveMaskBit | src/library/utils/http.rs:75-88 | bit k of a movemask is lane k, and there are no other bits |
| Scanner.BlockMaskBit | src/library/utils/http.rs:133-150 | bit k of a block's combined mask is set exactly when a request starts k bytes into the block |
| Scanner.LoadBlock | src/library/utils/http.rs:129-150 | three in-bounds loads yield a mask whose bits are exactly the block's starts |
| Scanner.DrainStep | src/library/utils/http.rs:110-115 | taking the lowest bit appends exactly the next start and leaves the rest of the block |
| Scanner.DrainMask | src/library/utils/http.rs:108-125 | draining one block extends the found starts to those below the block's end, capped at N |
| Scanner.ScanUnrolled | src/library/utils/http.rs:69-127 | the unrolled loop has found the first N starts below its stopping point, and stops only at the cap or within 65 bytes of the end |
| Scanner.ScanTail | src/library/utils/http.rs:128-161 | the tail loop completes the list to the scan's end |
| Scanner.FindRequestStarts | src/library/utils/http.rs:64-163 | on every buffer the scanner returns exactly the first N starts below the scan's end, ascending |
| Scanner.StartsExact | src/library/utils/http.rs:64-163 | the byte-wise reading lists each position below a bound where `GET` or `POS` stands, each once, ascending |
| Scanner.NothingMissed | src/library/utils/http.rs:128-163 | below the cap every start with 34 bytes from it to the end is reported |
| Scanner.TailStartMissed | src/library/utils/http.rs:128 | a start with 33 bytes from it to the end can go unreported |
| Window.MaskedCompare | src/library/utils/http.rs:15-32 | the masked 64-bit compares test exactly the first four or five bytes |
| Window.ParseOneBranches | src/library/utils/http.rs:14-61 | both fast paths and the generic path look for the path right after the window's first space |
| Window.ParseOneExact | src/library/utils/http.rs:14-61 | the parser is the two-space search if and only if the first space is not the window's last byte; otherwise it reports a 31-byte path at offset 32 |
| Window.TwoSpacesMeaning | src/library/utils/http.rs:46-60 | a result is a space-free method, one space, a space-free path and a space, all inside the window; no result means fewer than two spaces |
| Window.ParseOneReads | src/library/utils/http.rs:14-61 | a window that holds a method, a space, a path and a space is read as those |
| Window.ParseOneLegible | src/library/utils/http.rs:14-61 | a window gives fields if and only if it holds two spaces or ends in its only one, and they are those that its first two spaces delimit |
| Http.ParseHttpMethodsPaths | src/library/utils/http.rs:173-198 | the filled entries are exactly the readings of all starts that fit, in order, at most N |
| Http.EntriesAtBreak | src/library/utils/http.rs:180-184 | stopping at the first start whose window does not fit loses no entry |
| Http.EntriesExact | src/library/utils/http.rs:173-198 | on the bytes: one entry for each of the first N starts whose window lies in the buffer and holds two spaces or ends in its only one, none for any other start, in order, with the fields its spaces delimit |
| Http.EntryPlace | src/library/utils/http.rs:186-192 | method and path lie in the start's own window exactly when its first space is not its last byte |
| Http.GetPathInside | src/library/utils/http.rs:186-192 | every method slice is inside the buffer, and a path slice is too unless the method is 31 bytes long |
| Http.PathLeavesIff | src/library/utils/http.rs:53-60 | a path slice leaves the buffer if and only if the window's first space is its last byte and fewer than 31 bytes follow the window |
| Http.PathCanLeaveBuffer | src/library/utils/http.rs:53-60 | a buffer whose parse yields a path slice past its end |
| Http.MixedRoundTrip | src/library/utils/http.rs:173-198 | a pipeline that mixes requests that fit their window with longer ones is read back as exactly those that fit, in order |
| Http.PipelinedRoundTrip | src/library/utils/http.rs:173-198 | any pipeline of at most N requests with no stray start and a last request of 34 bytes is read back as its methods and paths |
| Http.CleanRoundTrip | src/library/utils/http.rs:173-198 | the round trip for all requests whose paths and rests hold no `G` and no `P` |
| Trim.ZeroBlock | src/library/utils/trim.rs:15-20 | a mask that is not all ones names the block's first nonzero byte by its trailing ones |
| Trim.LTrim256 | src/library/utils/trim.rs:7-35 | the vector left trim is the byte-wise one on every input |
| Trim.RTrim256 | src/library/utils/trim.rs:38-72 | the vector right trim is the byte-wise one on every input |
| Trim.TrimLeftUnique | src/library/utils/trim.rs:7-35 | dropping zeros before a nonzero byte, or all of an all-zero input, is what the left trim does, and nothing else is |
| Trim.TrimRightUnique | src/library/utils/trim.rs:38-72 | the same from the right |
| Trim.TrimsIdempotentAndCommute | src/library/utils/trim.rs:7-72 | each trim is idempotent and the two commute |
| Shift.ShiftSafe | src/library/utils/shift.rs:5-15 | the overlapping byte loop leaves the packet at the end, zeros where it was, the gap untouched, and all zeros when the packet fills the buffer |
| Shift.ShiftUb | src/library/utils/shift.rs:18-39 | the vector copy yields a full-size buffer of zeros followed by the packet, with every load inside the source |
| Shift.ShiftUbInplace | src/library/utils/shift.rs:42-46 | in place, zeros followed by the packet |
| Shift.SafeShiftAgrees | src/library/utils/shift.rs:5-46 | the byte loop agrees with the other two if and only if the gap was zero and a packet that fills the buffer is all zeros |
| Shift.SafeShiftErases | src/library/utils/shift.rs:9-14 | a buffer that the byte loop erases |
| Shift.TrimAfterShift | src/library/utils/shift.rs:42-46 | trimming a shifted buffer gives the packet without its leading zeros |
| Shift.ShiftedViewParses | src/library/server.rs:349-350 | the trimmed view is the packet if and only if its first byte is not zero, and then parses to the same requests |
| Packets.ParseIpv4TcpPackets | src/library/network/tsocket.rs:337-415 | the loop with its checks returns what the recursive walk finds, all reads in bounds on any bytes |
| Packets.PayloadsOrdered | src/library/network/tsocket.rs:342-413 | on any bytes the payloads are disjoint sub-ranges in order, each past its own Ethernet header |
| Packets.KeepRange | src/library/network/tsocket.rs:393-412 | a kept payload lies between its frame's Ethernet header and the next frame, and ends where the frame does |
| Packets.InspectFrame | src/library/network/tsocket.rs:342-412 | a frame anywhere in a buffer contributes its own content, and is stepped over exactly |
| Packets.WalkInverts | src/library/network/tsocket.rs:337-415 | for every list of TCP, other IPv4 and non-IPv4 frames, walking their concatenation returns the TCP segments' addresses, ports and payloads in order |
| Packets.BrokenTail | src/library/network/tsocket.rs:357-401 | frames followed by a frame that is cut off or whose TCP header runs out of it yield exactly the frames, whatever else the bytes hold |
| Packets.TruncatedCapture | src/library/network/tsocket.rs:342-401 | a capture cut anywhere within a frame yields exactly the frames before it |
| ServerInternals.PackUnpack | src/library/server_internals.rs:21-33 | unpacking what was packed loses bit 15 of the operation for every client but 0 and everything else for client 0; packed data is always routed as a response |
| ServerInternals.RoundTripsIff | src/library/server_internals.rs:21-33 | exactly the records that survive the round trip |
| ServerInternals.TagReads | src/library/server.rs:214-219 | for every client the table can name the user data of an operation unpacks to that client and operation |
| Response.SelectRoute | src/main.rs:52-61 | status line, content type and body of the route |
| Response.BuildReply | src/main.rs:62-71 | the writes fit the 512-byte lake and are the response's parts in order |
| Response.Handler | src/main.rs:40-74 | the literal response to the method and path is in the hot cache at the given place, its length is returned, and the rest of the cache is untouched |
| Response.ReplyLiteral | src/main.rs:30-73 | the bytes of the response to GET /plaintext, to GET /json and to anything else, literally |
| Response.ReplyLength | src/main.rs:30-73 | responses are 204, 224 and 209 bytes long |
| Response.ReplyIsHead | src/main.rs:62-71 | a response is seven header lines, a blank line and the body |
| Response.AnnouncedLength | src/main.rs:67-68 | the first Content-Length among the header lines is the body's length, unless the date line reads as one |
| Response.StreamDecodes | src/main.rs:48-73 | a client that reads heads and announced bodies recovers exactly the routed messages from every stream of responses |
| Response.SelfDelimitingIff | src/main.rs:48-73 | streams with one date are self-delimiting if and only if the date line does not start as a Content-Length header |
| ServerLoop.Server.constructor | src/library/server.rs:710-743 | the fields of a new server |
| ServerLoop.Server.SetUp | src/library/server.rs:613-632 | set-up reaches the initial state of every run |
| ServerLoop.Server.RegisterBuffers | src/library/server.rs:94-127 | all 1024 buffers are offered, synced and taken |
| ServerLoop.Server.ReserveWritesBuffer | src/library/server.rs:593-598 | the first slots hold the dummy descriptor |
| ServerLoop.Server.ReleaseBuffers | src/library/server.rs:133-167 | exactly the hoarded buffers go back, one entry each, and the hoard is empty |
| ServerLoop.Server.ProcessEntryAccept | src/library/server.rs:181-224 | a positive descriptor enters the tables under the next id, with its poll and receive pushed; any other changes nothing |
| ServerLoop.Server.CollectSends | src/library/server.rs:242-270 | one send entry a client with pending bytes, in table order, and their buffers emptied |
| ServerLoop.Server.WidebandSend | src/library/server.rs:231-278 | the flush, the new state in full |
| ServerLoop.Server.AnswerAll | src/library/server.rs:433-447 | the hot cache holds the concatenated answers to the requests, and the rate counts them |
| ServerLoop.Server.Ubdma | src/library/server.rs:323-405 | the poll path, the new state in full |
| ServerLoop.Server.RequestReply | src/library/server.rs:406-471 | the reply to a packet and the release at 682 hoarded buffers, the new state in full |
| ServerLoop.Server.CloseConnection | src/library/server.rs:472-501 | the forced close, the new state in full |
| ServerLoop.Server.ProcessEntryResponse | src/library/server.rs:502-561 | every branch on the result, from a reachable state without leaving a table or a buffer |
| ServerLoop.Server.ProcessEntry | src/library/server.rs:562-592 | the dispatch, from a reachable state without leaving a table or a buffer |
| ServerLoop.Server.LoopTop | src/library/server.rs:634-670 | metrics, flush and sync |
| ServerLoop.Server.LoopWait | src/library/server.rs:671-691 | completion sync and submission |
| ServerLoop.Server.Iterate | src/library/server.rs:633-705 | one turn of the loop is the run of its events: top, wait, a drain for every completion seen, end, with any steps of the kernel between them |
| Effects.ReleaseEntries | src/library/server.rs:142-165 | a return of the hoard appends exactly one provide entry a buffer, the i-th naming the i-th hoarded buffer, and the kernel takes them all |
| Effects.AcceptEntries | src/library/server.rs:190-222 | an accept enters the tables under the next id and appends a poll, synced at once, and a receive in UBDMA mode and a receive alone otherwise, each under its tag; what finds no room is lost |
| Effects.AcceptWithRoom | src/library/server.rs:201-222 | with room for both exactly those entries are appended |
| Effects.CompletionTable | src/library/server.rs:502-561 | for every entry and result, what its completion does: close on a reset or on an end of anything but a send, return of the hoard when buffers ran out, the reply with every field it changes, the poll, and nothing at all otherwise |
| Effects.OtherCompletions | src/library/server.rs:562-592 | what the completions of multi-accepts and of offered buffers do |
| Effects.TopEffect | src/library/server.rs:634-670 | a loop top queues one send a client with pending bytes, of exactly those on its own descriptor in the order of the ids, empties all buffers, syncs everything, and in a new second publishes the running rate and renews the date |
| Effects.WaitEffect | src/library/server.rs:671-691 | all posted completions are shown, and the kernel takes everything pushed if there are none or the ring is within four entries of its capacity, and nothing otherwise |
| Preserved.ReleaseKeeps | src/library/server.rs:133-167 | returning buffers keeps every invariant and empties the hoard |
| Preserved.AcceptKeeps | src/library/server.rs:181-224 | accepting keeps every invariant, also when the ring loses an entry |
| Preserved.CloseKeeps | src/library/server.rs:472-501 | closing keeps every invariant, because nothing waits for the client behind the closing completion |
| Preserved.ReplyKeeps | src/library/server.rs:406-464 | a reply keeps every invariant: the packet leaves the queue for the history, its buffer the queue for the hoard |
| Preserved.UbdmaKeeps | src/library/server.rs:323-405 | the poll path keeps every invariant |
| Preserved.FlushKeeps | src/library/server.rs:231-278 | a flush keeps every invariant and leaves nothing pending |
| Runs.DrainIsSafe | src/library/server.rs:415-452 | no drain of a reachable state indexes outside the buffers or reads an output buffer that is gone |
| Runs.ProcessKeeps | src/library/server.rs:562-592 | every completion keeps the invariants; only accepts and closes change connections, and at most one answer is recorded |
| Runs.StepKeeps | src/library/server.rs:633-705 | every step of the loop and of the kernel keeps every invariant |
| Guarantees.RunKeeps | src/library/server.rs:633-705 | no sequence of events breaks an invariant or changes the mode |
| Guarantees.InitialInv | src/library/server.rs:613-632 | the invariants hold after set-up |
| Guarantees.OutputConserved | src/library/server.rs:434-452 | after every run, for every live client, bytes queued in send entries under its name followed by its pending bytes are the answers to its packets in order; for a closed client what was queued is a prefix |
| Guarantees.DeliveredInOrder | src/library/server.rs:423-431 | every packet delivered was answered once, in order of arrival, or waits with its bytes intact |
| Guarantees.ClientReceives | src/library/server.rs:434-452 | a live client takes everything queued and pending apart into exactly the messages routed for its requests |
| Guarantees.ArrivalsAnswered | src/library/server.rs:423-452 | when no completion waits, a live client's queued and pending bytes are the answers to exactly the packets that arrived for it, in order of arrival, each under a date the loop had set |
| Guarantees.ArrivalsReceived | src/library/server.rs:423-452 | the bodies a live client reads are those routed for the packets that arrived for it, in order, but for packets that still wait |
| Accounts.OutputInBothModes | src/library/server.rs:323-471 | in both modes, for every client of every run, queued then pending bytes are the answers its packets and its polls were given, in order; for a closed client what was queued is a prefix |
| Guarantees.PoolConserved | src/library/server.rs:456-469 | kernel, waiting completions and hoard partition the 1024 buffers; the hoard stays at or below 681, so 343 are outside it |
| Accounts.BuffersBalance | src/library/server.rs:94-167 | for every buffer of every run, the offers of it that the kernel has taken are the packets received into it, plus one while it is free |
| Guarantees.TablesAgree | src/library/server.rs:247-268 | the first hundred slots hold 0xFFFF; output buffers are exactly the table's entries past the 100 reserved; descriptors are positive; the count less 100 is the number of connections; a flush finds every descriptor |
| Accounts.SetupLog | src/library/server.rs:94-127 | the log of every run begins with one offer of each of the 1024 buffers and sixteen multi-accepts, and holds no other multi-accept |
| Accounts.ConnectionsArmedOnce | src/library/server.rs:181-224 | over every run each accepted client has exactly one receive in the log, and exactly one poll if and only if the worker is in UBDMA mode, but for those that found no room |
| Guarantees.CloseExact | src/library/server.rs:483-499 | a close removes the id and calls close on its descriptor, or on 0xFF when the id is gone |
| Guarantees.SyncBookkeeping | src/library/server.rs:658-670 | an unsynced entry has the sync flag up, the sync point leaves none, and the loop head always sees an empty completion queue |
| Guarantees.RatesConserved | src/library/server.rs:637-642 | published rates and the running one add up to all requests served |
| Accounts.RateOnDisplay | src/library/server.rs:637-704 | in every run the rate on display is the number of requests served between the last two publications, and a turn's end returns the hoard if and only if that is zero |
| Guarantees.UserDataSurvives | src/library/server.rs:204-219 | everything packed in any run unpacks to a real client's id and operation, on that client's descriptor |
| Guarantees.CapacityHeld | src/library/server.rs:449-452 | given that each reply is taken only when it fits, accepts, polls and flushes keep pending bytes within the output buffer; and the answers to any packet fit the hot cache, unconditionally |
| Guarantees.FewUnflushedFit | src/library/server.rs:449-452 | in every reachable state the answers to a packet fit while no more than 96 requests of its client are unflushed |
| Guarantees.AnswersFitIff | src/library/server.rs:42 | every n answers fit the output buffer if and only if n is at most 96 |
| Witnesses.OverflowReachable | src/library/server.rs:449-452 | a run whose next reply would put 21728 bytes into the output buffer |
| Guarantees.PipelineAnswered | src/library/server.rs:431-447 | a pipeline of at most fifty requests that arrives as one packet is owed exactly its requests' answers, in order |
| Guarantees.OverrunNotRouted | src/main.rs:54-61 | a request whose path slice leaves the packet is answered as not found whatever lies there |
| Guarantees.PollSeesPacket | src/library/server.rs:458-464 | after a reply in UBDMA mode the next poll sees exactly the packet if and only if it starts with a nonzero byte and either the buffer ended in a zero byte, so that it was shifted, or the packet fills the buffer; and then the same answers |
| Guarantees.PollAnswersIff | src/library/server.rs:341-403 | a poll answers if and only if the last buffer reads as more than five requests and a live client has nothing pending; nobody else's output changes |
| Descriptors.DistinctStep | src/library/server.rs:472-501 | a step keeps the descriptors of live and waiting connections distinct and open if and only if it is no close of a gone id while 0xFF is in use |
| Descriptors.SocketsStep | src/library/server.rs:472-501 | a step keeps descriptors distinct and leaves no entry of a gone client to be taken if and only if it neither closes a gone id while 0xFF is in use nor closes a client that still has an entry to be taken |
| Descriptors.SocketsIff | src/library/server.rs:633-705 | in a run from set-up this holds in every state if and only if no event is such a close |
| Descriptors.ClientsKeepTheirSockets | src/library/server.rs:247-262 | in runs without such closes every live client has an open descriptor of its own, and whatever the kernel takes next on a connection it takes while the descriptor is the socket of the client it was pushed for |
| Progress.RingWithinCapacity | src/library/server.rs:599-706 | in every reachable state the ring holds at most its capacity as the server sees it |
| Progress.NextStepIff | src/library/server.rs:633-705 | in every reachable state the worker can take its next step if and only if the flush or the return of the hoard that it pushes finds room, the answers to the next packet fit, and the next connection gets an id |
| Progress.KernelKeepsReadiness | src/library/server.rs:149-158 | no step of the kernel makes the worker's next step possible or impossible |
| Progress.StandsForever | src/library/server.rs:149-158 | once the next step is impossible, every further run consists of the kernel's steps alone and answers, pushes and flushes nothing |
| Progress.NowOrNever | src/library/server.rs:633-705 | if any run from a reachable state has another step of the loop in it, the loop can take its next step now |
| Stalls.StuckReachable | src/library/server.rs:149-158 | a run after which the ring is full and the return of one buffer is retried forever |
| Stalls.AbortReachable | src/library/server.rs:271-274 | a run after which the ring is full and the flush at the loop head fails |
| Witnesses.StaleCloseReachable | src/library/server.rs:475-499 | a run after which a live client's descriptor is closed |
| Witnesses.LateSendReachable | src/library/server.rs:247-262 | a run after which the kernel can take the response to a closed client on a descriptor that is another live client's |

## Left out

- System calls, ring set-up, socket options and the listener: the kernel is ghost state with the contract above.
- Wire delivery, partial sends, and kernel reads of an output buffer after its position is reset: a send is a snapshot.
- Liveness: multi-shot receives are not armed again after ENOBUFS, so the code does not answer every request eventually.
- Whose packet a poll answers: it reads the last seen buffer whoever owns it. That what it gives is conserved is proved (`Accounts.OutputInBothModes`), as are pool, tables, counters, capacity and the shift, trim and parse agreement.
- The non-forced branch of the close, which nothing calls, and what the system does with `close(0xFF)` beyond freeing the number.
- In-place bytes of the receive and output buffers: `Server` replaces a receive buffer by the value that `Shift.ShiftUbInplace` is proved to leave in an array, and keeps an output buffer as the bytes pending in it, with the capacity as a precondition of each write; aliasing between buffers is not modelled.
- The hz counters, the universal counter, the send-busy flag and the clock of the last flush: written, never acted upon.
- 64-bit wrap-around of the request counters.
- Packet sockets, ring reads and interface lookup in `tsocket.rs`, kernel assembly, memory fills, logging, thread spawning and configuration setters.
