/**
 What every reachable state satisfies.  Each invariant names the fields it reads, so that a
 handler that leaves those alone keeps it without further argument.  `q` is the queue of completions
 the server has not processed yet, oldest first.
 */
module Invariants {
  import opened Bytes
  import opened ServerInternals
  import opened Machine
  import Response

  // ----- completions, decoded

  predicate IsResponse(c: Cqe) { c.userData >= REQ_RESP_OFFSET }

  function ClientOf(c: Cqe): nat { if IsResponse(c) then Unpack(c.userData).clientId else 0 }

  function CodeOf(c: Cqe): nat { if IsResponse(c) then Unpack(c.userData).uniqId else 0 }

  /** A received packet. */
  predicate IsData(c: Cqe) { IsResponse(c) && CodeOf(c) == INIT_REQUEST && c.result > 0 }

  /** A completion on which the server closes the client. */
  predicate Closes(c: Cqe, client: nat) {
    IsResponse(c) && ClientOf(c) == client
    && ((c.result == 0 && CodeOf(c) != SEND_EVENT) || c.result == -ECONNRESET)
  }

  function BufsOf(q: seq<Cqe>): seq<nat> {
    if q == [] then [] else (if IsData(q[0]) then [BufOf(q[0].flags)] else []) + BufsOf(q[1..])
  }

  // ----- connection table

  /** Output buffers are exactly the connections past the reserved slots, and every descriptor is positive. */
  ghost predicate Tables(fds: map<nat, int>, nextId: nat, out: map<nat, seq<byte>>, fdOf: map<nat, int>) {
    && RESERVED <= nextId <= ID_LIMIT
    && (forall id: nat :: id in fds ==> id < nextId && fds[id] > 0)
    && (forall id: nat :: id < RESERVED ==> id in fds && fds[id] == RESERVED_FD)
    && (forall id: nat :: id in out <==> id in fds && id >= RESERVED)
    && (forall id: nat :: id in fdOf <==> RESERVED <= id < nextId)
    && (forall id: nat :: id in out ==> fdOf[id] == fds[id])
  }

  // ----- submission ring

  /** User data of an operation on the connection that owned descriptor `fd`: it unpacks to what was packed. */
  ghost predicate Owned(userData: nat, code: u16, fd: int, fdOf: map<nat, int>) {
    && userData >= REQ_RESP_OFFSET
    && var id := Unpack(userData).clientId;
      && id in fdOf && fdOf[id] == fd
      && Unpack(userData) == UserData(id, 0, code) && userData == Tag(id, code)
  }

  ghost predicate EntryOk(e: Sqe, fdOf: map<nat, int>, ubdma: bool) {
    match e.op
    case AcceptMulti => e.userData == CODE_ACCEPT
    case ProvideBuffer(b) => e.userData == BUFFER_REGISTER_CODE && b < BUFFERS_COUNT
    case PollAdd(fd) => ubdma && Owned(e.userData, POLL_EVENT, fd, fdOf)
    case RecvMulti(fd) => Owned(e.userData, INIT_REQUEST, fd, fdOf)
    case Send(fd, _) => Owned(e.userData, SEND_EVENT, fd, fdOf)
  }

  ghost predicate Entries(sq: seq<Sqe>, fdOf: map<nat, int>, ubdma: bool) {
    forall i :: 0 <= i < |sq| ==> EntryOk(sq[i], fdOf, ubdma)
  }

  /** Cursors in order, and an entry that is pushed but not synced leaves the sync flag up. */
  ghost predicate Cursors(ring: Ring, syncNow: bool) {
    ring.head <= ring.consumed <= ring.synced <= |ring.log| && (ring.synced < |ring.log| ==> syncNow)
  }

  // ----- completion queue

  ghost predicate CqeOk(c: Cqe, fdOf: map<nat, int>, ubdma: bool) {
    || c.userData == CODE_ACCEPT
    || c.userData == BUFFER_REGISTER_CODE
    || (IsResponse(c) && ClientOf(c) in fdOf
        && (CodeOf(c) == INIT_REQUEST || CodeOf(c) == SEND_EVENT || (CodeOf(c) == POLL_EVENT && ubdma))
        && (IsData(c) ==> c.result <= BUFFER_SIZE && BufOf(c.flags) < BUFFERS_COUNT))
  }

  ghost predicate QueueOk(q: seq<Cqe>, fdOf: map<nat, int>, ubdma: bool) {
    forall i :: 0 <= i < |q| ==> CqeOk(q[i], fdOf, ubdma)
  }

  /** A packet waits only for a client that is still there and that nothing ahead in the queue closes. */
  ghost predicate Live(q: seq<Cqe>, clients: set<nat>) {
    forall i :: 0 <= i < |q| && IsData(q[i]) ==>
      ClientOf(q[i]) in clients && forall j :: 0 <= j < i ==> !Closes(q[j], ClientOf(q[i]))
  }

  // ----- buffer pool

  ghost predicate NoDup(s: seq<nat>) { forall i, j :: 0 <= i < j < |s| ==> s[i] != s[j] }

  /** Free in the kernel, waiting in a completion, or hoarded for return: every buffer is exactly one of these. */
  ghost predicate Pool(free: set<nat>, released: seq<nat>, q: seq<Cqe>) {
    var held := released + BufsOf(q);
    && NoDup(held)
    && (forall b: nat :: b in free || b in held <==> b < BUFFERS_COUNT)
    && (forall b: nat :: b in free ==> b !in held)
  }

  ghost predicate Buffers(buffers: seq<seq<byte>>, lastBuf: Option<nat>) {
    && |buffers| == BUFFERS_COUNT
    && (forall b :: 0 <= b < BUFFERS_COUNT ==> |buffers[b]| == BUFFER_SIZE)
    && (lastBuf.Some? ==> lastBuf.value < BUFFERS_COUNT)
  }

  // ----- deliveries

  function ArrivalOf(c: Cqe, buffers: seq<seq<byte>>): Arrival {
    var b := BufOf(c.flags);
    Arrival(ClientOf(c), if b < |buffers| && 0 <= c.result <= |buffers[b]| then buffers[b][..c.result] else [])
  }

  /** The packets that wait in the queue, as their buffers hold them now. */
  function InFlight(q: seq<Cqe>, buffers: seq<seq<byte>>): seq<Arrival> {
    if q == [] then []
    else (if IsData(q[0]) then [ArrivalOf(q[0], buffers)] else []) + InFlight(q[1..], buffers)
  }

  function ArrivalsOf(handled: seq<Handled>): (r: seq<Arrival>)
    ensures |r| == |handled|
  {
    seq(|handled|, i requires 0 <= i < |handled| => handled[i].arrival)
  }

  /** Every packet the kernel delivered was answered or still waits unharmed, in order of arrival. */
  ghost predicate Arrived(arrivals: seq<Arrival>, handled: seq<Handled>, q: seq<Cqe>, buffers: seq<seq<byte>>) {
    arrivals == ArrivalsOf(handled) + InFlight(q, buffers)
  }

  // ----- output

  predicate SentTo(e: Sqe, c: nat) { e.op.Send? && e.userData == Tag(c, SEND_EVENT) }

  /** The bytes queued for a client in send entries, in order. */
  function Queued(sq: seq<Sqe>, c: nat): seq<byte> {
    if sq == [] then []
    else
      var e := sq[|sq| - 1];
      Queued(sq[..|sq| - 1], c) + (if SentTo(e, c) then e.op.data else [])
  }

  /** The answers owed to a client for the packets handled so far. */
  function Owed(handled: seq<Handled>, c: nat): seq<Response.Answer> {
    if handled == [] then []
    else
      var h := handled[|handled| - 1];
      Owed(handled[..|handled| - 1], c)
      + (if h.arrival.client == c then Answers(h.arrival.packet, h.date) else [])
  }

  /** Queued then pending is exactly what is owed; for a client that is gone, what was queued is a prefix of it. */
  ghost predicate OutputOf(sq: seq<Sqe>, out: map<nat, seq<byte>>, handled: seq<Handled>, c: nat) {
    if c in out then Queued(sq, c) + out[c] == Response.Stream(Owed(handled, c))
    else Queued(sq, c) <= Response.Stream(Owed(handled, c))
  }

  ghost predicate Output(sq: seq<Sqe>, out: map<nat, seq<byte>>, handled: seq<Handled>, nextId: nat) {
    && (forall c: nat :: c < ID_LIMIT ==> OutputOf(sq, out, handled, c))
    && (forall c: nat :: c >= nextId ==> Owed(handled, c) == [])
  }

  /** Pending bytes fit the output buffer, and are bounded by the requests not flushed yet. */
  ghost predicate Capacity(out: map<nat, seq<byte>>, unflushed: map<nat, nat>) {
    forall c: nat :: c in out ==>
      c in unflushed && |out[c]| <= DATA_LAKE_SIZE && |out[c]| <= Response.MAX_REPLY * unflushed[c]
  }

  // ----- counters

  function Total(handled: seq<Handled>): nat {
    if handled == [] then 0
    else
      var h := handled[|handled| - 1];
      Total(handled[..|handled| - 1]) + |Requests(h.arrival.packet)|
  }

  /** Published rates and the running one add up to the requests served. */
  ghost predicate Counters(ubdma: bool, published: nat, rpsAcc: nat, served: nat, handled: seq<Handled>) {
    published + rpsAcc == served && (!ubdma ==> served == Total(handled))
  }

  // ----- all together

  function Pending(s: State): seq<Cqe> { s.visible + s.posted }

  /** Everything but the loop position, with the queue made explicit. */
  ghost predicate Core(s: State, q: seq<Cqe>) {
    && Tables(s.fds, s.nextId, s.out, s.fdOf)
    && Entries(s.ring.log, s.fdOf, s.ubdma)
    && Cursors(s.ring, s.syncNow)
    && QueueOk(q, s.fdOf, s.ubdma)
    && Live(q, s.out.Keys)
    && Pool(s.free, s.released, q)
    && Buffers(s.buffers, s.lastBuf)
    && Arrived(s.arrivals, s.handled, q, s.buffers)
    && (!s.ubdma ==> Output(s.ring.log, s.out, s.handled, s.nextId))
    && Capacity(s.out, s.unflushed)
    && Counters(s.ubdma, s.published, s.rpsAcc, s.served, s.handled)
    && |s.date| == Response.DATE_LEN
  }

  ghost predicate Position(s: State) {
    && (s.phase == Synced ==> s.ring.synced == |s.ring.log| && !s.syncNow)
    && (s.phase != Draining ==> s.visible == [])
    && |s.released| < RELEASE_AT
  }

  ghost predicate Inv(s: State) { Core(s, Pending(s)) && Position(s) }
}
