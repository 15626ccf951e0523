/**
 The server as a state machine: what each handler does to the tables, the buffers and the
 rings.  Every function is the specification of the method of the same name in Server.

 The submission ring is the log of every entry ever pushed, with three cursors: entries
 before `synced` are visible to the kernel, entries before `consumed` were taken by it, and
 `head` is the kernel's position as of the last sync.  Completions wait in `posted` until a
 sync moves them to `visible`.
 */
module Machine {
  import opened Bytes
  import opened ServerInternals
  import Http
  import Trim
  import Shift
  import opened Response

  const BUFFERS_COUNT: nat := 1024
  const DATA_LAKE_SIZE: nat := 21504
  const RESERVED: nat := 100
  const RESERVED_FD: int := 0xFFFF
  const MAX_REQUESTS: nat := 50
  /** (BUFFERS_COUNT as f64 / 1.5) as usize. */
  const RELEASE_AT: nat := 682
  const ID_LIMIT: nat := 0x1_0000_0000

  const EAGAIN: int := 11
  const EBADF: int := 9
  const EPIPE: int := 32
  const ECONNRESET: int := 104
  const ENOBUFS: int := 105

  datatype Op =
    | AcceptMulti
    | ProvideBuffer(buf: nat)
    | PollAdd(fd: int)
    | RecvMulti(fd: int)
    | Send(fd: int, data: seq<byte>)

  datatype Sqe = Sqe(op: Op, userData: nat)
  datatype Cqe = Cqe(userData: nat, result: int, flags: nat)

  /** A packet the kernel received for a client, and a packet the server has answered. */
  datatype Arrival = Arrival(client: nat, packet: seq<byte>)
  datatype Handled = Handled(arrival: Arrival, date: seq<byte>)

  datatype Phase = Head | Synced | Draining

  /** The submission ring. */
  datatype Ring = Ring(cap: nat, log: seq<Sqe>, synced: nat, consumed: nat, head: nat) {
    function Room(): int { cap - (|log| - head) }

    /** SubmissionQueue::push with its error dropped: a full ring loses the entry. */
    function Push(e: Sqe): Ring { if Room() > 0 then this.(log := log + [e]) else this }

    /** SubmissionQueue::push_multiple, which the source retries or unwraps: it takes all entries or none. */
    function PushAll(es: seq<Sqe>): Ring { this.(log := log + es) }

    /** SubmissionQueue::sync. */
    function Sync(): Ring { this.(synced := |log|, head := consumed) }

    /** Submitter::submit: the kernel takes every synced entry. */
    function Submit(): Ring { this.(consumed := synced) }
  }

  datatype State = State(
    // configuration
    ubdma: bool,
    // server
    fds: map<nat, int>, nextId: nat, out: map<nat, seq<byte>>,
    released: seq<nat>, buffers: seq<seq<byte>>, lastBuf: Option<nat>,
    syncNow: bool, rps: nat, rpsAcc: nat, clock: int, date: seq<byte>, phase: Phase,
    // rings
    ring: Ring,
    visible: seq<Cqe>, posted: seq<Cqe>,
    // kernel
    free: set<nat>, openFds: set<int>,
    // history
    fdOf: map<nat, int>, closed: seq<int>, arrivals: seq<Arrival>, handled: seq<Handled>,
    published: nat, served: nat, unflushed: map<nat, nat>)

  // ----- handlers

  function Provide(id: nat): Sqe { Sqe(ProvideBuffer(id), BUFFER_REGISTER_CODE) }

  function Provides(ids: seq<nat>): (r: seq<Sqe>)
    ensures |r| == |ids|
  {
    seq(|ids|, i requires 0 <= i < |ids| => Provide(ids[i]))
  }

  /** Submit, push a provide entry for each buffer, sync, and wait until the kernel took them. */
  function Returned(ring: Ring, ids: seq<nat>): Ring {
    ring.Submit().PushAll(Provides(ids)).Sync().Submit()
  }

  /** Hands the hoarded buffers back to the kernel and waits until it has them. */
  function ReleaseBuffers(s: State): State {
    if s.released == [] then s
    else
      s.(ring := Returned(s.ring, s.released),
         free := s.free + (set b | b in s.released), released := [])
  }

  function ProcessEntryAccept(s: State, result: int): State {
    if result <= 0 then s
    else
      var id := s.nextId;
      s.(fds := s.fds[id := result], nextId := id + 1, out := s.out[id := []],
         fdOf := s.fdOf[id := result], unflushed := s.unflushed[id := 0],
         ring := Armed(s.ring, s.ubdma, id, result), syncNow := true)
  }

  /** The poll, pushed and synced at once in UBDMA mode, and the receive. */
  function Armed(ring: Ring, ubdma: bool, id: nat, fd: int): Ring {
    var r := if ubdma then ring.Push(Sqe(PollAdd(fd), Tag(id, POLL_EVENT))).Sync() else ring;
    r.Push(Sqe(RecvMulti(fd), Tag(id, INIT_REQUEST)))
  }

  /** The send entries for clients with pending bytes, in table order from `id` on. */
  function SendsFrom(out: map<nat, seq<byte>>, fds: map<nat, int>, id: nat, end: nat): seq<Sqe>
    decreases end - id
  {
    if id >= end then []
    else
      (if id in out && out[id] != [] && id in fds then [Sqe(Send(fds[id], out[id]), Tag(id, SEND_EVENT))] else [])
      + SendsFrom(out, fds, id + 1, end)
  }

  function Sends(s: State): seq<Sqe> { SendsFrom(s.out, s.fds, 0, s.nextId) }

  /** The buffers of known clients, emptied. */
  function Emptied(out: map<nat, seq<byte>>, fds: map<nat, int>): (r: map<nat, seq<byte>>)
    ensures r.Keys == out.Keys
    ensures forall id :: id in out ==> r[id] == if id in fds then [] else out[id]
  {
    map id | id in out :: if id in fds then [] else out[id]
  }

  function Settled(unflushed: map<nat, nat>, fds: map<nat, int>): (r: map<nat, nat>)
    ensures r.Keys == unflushed.Keys
    ensures forall id :: id in unflushed ==> r[id] == if id in fds then 0 else unflushed[id]
  {
    map id | id in unflushed :: if id in fds then 0 else unflushed[id]
  }

  /** Flushes every client's pending bytes into one send entry each. */
  function WidebandSend(s: State): State {
    if s.out == map[] then s
    else
      s.(ring := s.ring.PushAll(Sends(s)), out := Emptied(s.out, s.fds), unflushed := Settled(s.unflushed, s.fds),
         syncNow := true)
  }

  /** The answers to the requests found in a packet. */
  function AnswerTo(r: Http.Request, date: seq<byte>): Answer { Answer(RouteOf(r.verb, r.path), date) }

  function AnswersTo(rs: seq<Http.Request>, date: seq<byte>): (a: seq<Answer>)
    ensures |a| == |rs|
  {
    seq(|rs|, i requires 0 <= i < |rs| => AnswerTo(rs[i], date))
  }

  function Requests(packet: seq<byte>): (r: seq<Http.Request>)
    ensures |r| <= MAX_REQUESTS
  {
    Http.Views(packet, Http.Parse(packet, MAX_REQUESTS))
  }

  function Answers(packet: seq<byte>, date: seq<byte>): (a: seq<Answer>)
    ensures |a| <= MAX_REQUESTS
  {
    AnswersTo(Requests(packet), date)
  }

  /** The poll path: answers whatever the last seen buffer seems to hold, if it is more than five requests. */
  function Ubdma(s: State, client: nat): State
    requires s.lastBuf.Some? ==> s.lastBuf.value < |s.buffers|
  {
    if s.lastBuf.None? then s
    else
      var answers := Answers(Trim.TrimLeft(s.buffers[s.lastBuf.value]), s.date);
      if |answers| <= 5 || client !in s.out || s.out[client] != [] then s
      else
        s.(out := s.out[client := Stream(answers)], rpsAcc := s.rpsAcc + |answers|, served := s.served + |answers|,
           unflushed := s.unflushed[client := |answers|], syncNow := true)
  }

  function BufOf(flags: nat): nat { flags / 0x1_0000 % 0x1_0000 }

  /** The buffer after its packet was answered: shifted when its last byte says so. */
  function AfterReply(ubdma: bool, buffers: seq<seq<byte>>, b: nat, len: nat): seq<seq<byte>>
    requires b < |buffers| && len <= |buffers[b]|
  {
    if ubdma && |buffers[b]| == BUFFER_SIZE && buffers[b][BUFFER_SIZE - 1] == 0
    then buffers[b := Shift.RightAligned(buffers[b], len)] else buffers
  }

  /** Whether a completion's buffer, length and client can be used without leaving the tables. */
  predicate Addressable(s: State, client: nat, flags: nat, result: int) {
    && BufOf(flags) < |s.buffers| && 0 <= result <= |s.buffers[BufOf(flags)]|
    && client in s.out && client in s.unflushed
  }

  /** The answers to a packet fit behind what is pending; the source writes them without a check. */
  predicate Fits(s: State, client: nat, packet: seq<byte>) {
    client in s.out && |s.out[client]| + |Stream(Answers(packet, s.date))| <= DATA_LAKE_SIZE
  }

  /** The reply to one packet, without the buffer return. */
  function Reply1(s: State, flags: nat, client: nat, result: nat): State
    requires Addressable(s, client, flags, result)
  {
    var b := BufOf(flags);
    var packet := s.buffers[b][..result];
    var answers := Answers(packet, s.date);
    s.(lastBuf := Some(b), rpsAcc := s.rpsAcc + |answers|, served := s.served + |answers|,
       out := s.out[client := s.out[client] + Stream(answers)],
       unflushed := s.unflushed[client := s.unflushed[client] + |answers|],
       handled := s.handled + [Handled(Arrival(client, packet), s.date)],
       syncNow := true, released := s.released + [b], buffers := AfterReply(s.ubdma, s.buffers, b, result))
  }

  function RequestReply(s: State, flags: nat, client: nat, result: int): State
    requires result <= BUFFER_SIZE ==> Addressable(s, client, flags, result)
  {
    if result > BUFFER_SIZE then s
    else
      var s1 := Reply1(s, flags, client, result);
      if |s1.released| == RELEASE_AT then ReleaseBuffers(s1) else s1
  }

  /** A forced close; an id that is gone leaves the default descriptor 0xFF to be closed. */
  function CloseConnection(s: State, client: nat): State {
    var cfd := if client in s.fds then s.fds[client] else 0xFF;
    var calls := if cfd == 0 then [] else [cfd];
    s.(fds := s.fds - {client}, out := s.out - {client},
       closed := s.closed + calls, openFds := s.openFds - (set fd | fd in calls))
  }

  // ----- dispatch

  /** What a completion at or above the response offset asks for. */
  datatype Action = Nothing | Release | Close(client: nat) | Poll(client: nat) | Reply(client: nat)

  function Decide(s: State, user: UserData, result: int): Action {
    if result == -EAGAIN || result == -EBADF then Nothing
    else if result == -ENOBUFS then Release
    else if result == -EPIPE then Nothing
    else if (result == 0 && user.uniqId != SEND_EVENT) || result == -ECONNRESET then Close(user.clientId)
    else if result < 0 then Nothing
    else if user.uniqId == POLL_EVENT && s.ubdma then Poll(user.clientId)
    else if user.uniqId == SEND_EVENT then Nothing
    else if result > 0 then Reply(user.clientId)
    else Nothing
  }

  datatype Dispatch = Ack | Accept | Response(action: Action) | Unmapped

  function DispatchOf(s: State, cqe: Cqe): Dispatch {
    if cqe.userData == BUFFER_REGISTER_CODE && cqe.result == 0 && cqe.flags == 0 then Ack
    else if cqe.userData == CODE_ACCEPT then Accept
    else if cqe.userData >= REQ_RESP_OFFSET then Response(Decide(s, Unpack(cqe.userData), cqe.result))
    else Unmapped
  }

  /** The unchecked accesses: a reply needs its client and its buffer, a poll the buffer last seen. */
  predicate Safe(s: State, cqe: Cqe) {
    match DispatchOf(s, cqe)
    case Response(Reply(client)) => cqe.result <= BUFFER_SIZE ==> Addressable(s, client, cqe.flags, cqe.result)
    case Response(Poll(client)) => s.lastBuf.Some? ==> s.lastBuf.value < |s.buffers|
    case _ => true
  }

  function ProcessEntry(s: State, cqe: Cqe): State
    requires Safe(s, cqe)
  {
    match DispatchOf(s, cqe)
    case Ack => s
    case Unmapped => s
    case Accept => ProcessEntryAccept(s, cqe.result)
    case Response(Nothing) => s
    case Response(Release) => ReleaseBuffers(s)
    case Response(Close(client)) => CloseConnection(s, client)
    case Response(Poll(client)) => Ubdma(s, client)
    case Response(Reply(client)) => RequestReply(s, cqe.flags, client, cqe.result)
  }

  // ----- the loop body, cut where the kernel can interleave

  function Metrics(s: State, clock: int, date: seq<byte>): State {
    if clock == s.clock then s
    else s.(rps := s.rpsAcc, published := s.published + s.rpsAcc, rpsAcc := 0, clock := clock, date := date)
  }

  /** From the loop head to the submission sync. */
  function Top(s: State, clock: int, date: seq<byte>): State {
    var s1 := Metrics(s, clock, date);
    var s2 := if s1.visible == [] then WidebandSend(s1) else s1;
    s2.(ring := if s2.syncNow then s2.ring.Sync() else s2.ring, syncNow := false, phase := Synced)
  }

  /** From the completion sync to the drain loop. */
  function Wait(s: State): State {
    var idle := s.visible == [];
    var visible := if idle then s.posted else s.visible;
    var submits := visible == [] || |s.ring.log| - s.ring.head >= s.ring.cap - 4;
    s.(visible := visible, posted := if idle then [] else s.posted,
       ring := if submits then s.ring.Submit() else s.ring, phase := Draining)
  }

  function Pop(s: State): State
    requires s.visible != []
  {
    s.(visible := s.visible[1..])
  }

  function Drain(s: State): State
    requires s.visible != [] && Safe(Pop(s), s.visible[0])
  {
    ProcessEntry(Pop(s), s.visible[0])
  }

  function End(s: State): State {
    (if s.rps == 0 then ReleaseBuffers(s) else s).(phase := Head)
  }

  function Count(n: nat): (r: seq<nat>)
    ensures |r| == n && forall i :: 0 <= i < n ==> r[i] == i
  {
    seq(n, i requires 0 <= i < n => i)
  }

  function Below(n: nat): (r: set<nat>)
    ensures forall b: nat :: b in r <==> b < n
  {
    assert forall b: nat :: b in Count(n) <==> b < n by {
      forall b: nat ensures b in Count(n) <==> b < n { Counted(n, b); }
    }
    set b | b in Count(n)
  }

  lemma Counted(n: nat, b: nat)
    ensures b in Count(n) <==> b < n
  {
    if b < n {
      assert Count(n)[b] == b;
    }
  }

  lemma {:induction false} BelowCard(n: nat)
    ensures |Below(n)| == n
  {
    if n == 0 {
      assert Below(0) == {};
    } else {
      BelowCard(n - 1);
      assert Below(n) == Below(n - 1) + {n - 1};
    }
  }

  /** The table after `n` dummy descriptors were pushed into it. */
  function ReserveWrites(n: nat): (fds: map<nat, int>)
    ensures forall id: nat :: id in fds <==> id < n
    ensures forall id: nat :: id < n ==> fds[id] == RESERVED_FD
  {
    map id | id in Below(n) :: RESERVED_FD
  }

  /** What set-up pushes: every buffer, then sixteen multi-accepts. */
  function SetupEntries(): (r: seq<Sqe>)
    ensures |r| == BUFFERS_COUNT + 16
    ensures forall i :: 0 <= i < |r| ==> r[i] == if i < BUFFERS_COUNT then Provide(i) else Sqe(AcceptMulti, CODE_ACCEPT)
  {
    seq(BUFFERS_COUNT, i requires 0 <= i < BUFFERS_COUNT => Provide(i)) + seq(16, _ => Sqe(AcceptMulti, CODE_ACCEPT))
  }

  function BlankBuffers(): (r: seq<seq<byte>>)
    ensures |r| == BUFFERS_COUNT && forall b :: 0 <= b < BUFFERS_COUNT ==> r[b] == Zeros(BUFFER_SIZE)
  {
    seq(BUFFERS_COUNT, _ => Zeros(BUFFER_SIZE))
  }

  /** After set-up: all buffers with the kernel, the accepts pushed but not synced, a hundred slots reserved. */
  function Initial(ubdma: bool, cap: nat): State {
    State(ubdma, ReserveWrites(RESERVED), RESERVED, map[],
          [], BlankBuffers(), None,
          true, 0, 0, 0, Zeros(DATE_LEN), Head,
          Ring(cap, SetupEntries(), BUFFERS_COUNT, BUFFERS_COUNT, 0),
          [], [], Below(BUFFERS_COUNT), {}, map[], [], [], [], 0, 0, map[])
  }
}
