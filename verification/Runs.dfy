/**
 Runs of the worker: the loop body cut at the points where the kernel can interleave, the
 kernel's own steps with their contract, and what holds after any sequence of them.
 */
module Runs {
  import opened Bytes
  import opened ServerInternals
  import opened Machine
  import opened Invariants
  import opened Histories
  import opened Preserved
  import Response

  datatype Event =
    | KernelTakes(upTo: nat)
    | KernelAccepts(fd: int)
    | KernelAcks
    | KernelReceives(entry: nat, buf: nat, packet: seq<byte>, low: nat)
    | KernelCompletes(entry: nat, result: int, flags: nat)
    | LoopTop(clock: int, date: seq<byte>)
    | LoopWait
    | LoopDrain
    | LoopEnd

  predicate IsKernel(e: Event) {
    e.KernelTakes? || e.KernelAccepts? || e.KernelAcks? || e.KernelReceives? || e.KernelCompletes?
  }

  predicate KernelSteps(es: seq<Event>) { forall i :: 0 <= i < |es| ==> IsKernel(es[i]) }

  // ----- the kernel

  /** A received packet as a completion: length in the result, buffer id in the upper flags. */
  function DataCqe(s: State, entry: nat, buf: nat, packet: seq<byte>, low: nat): Cqe
    requires entry < |s.ring.log|
  {
    Cqe(s.ring.log[entry].userData, |packet|, buf * 0x1_0000 + low)
  }

  /**
   The kernel writes only buffers it owns, reports a length that fits, and delivers no packet for a
   client that is gone or about to be closed.
   */
  ghost predicate CanReceive(s: State, entry: nat, buf: nat, packet: seq<byte>, low: nat) {
    && entry < s.ring.consumed <= |s.ring.log| && s.ring.log[entry].op.RecvMulti?
    && buf in s.free && low < 0x1_0000 && 1 <= |packet| <= BUFFER_SIZE
    && var client := ClientOf(DataCqe(s, entry, buf, packet, low));
      client in s.out && forall i :: 0 <= i < |Pending(s)| ==> !Closes(Pending(s)[i], client)
  }

  function Receive(s: State, entry: nat, buf: nat, packet: seq<byte>, low: nat): State
    requires entry < |s.ring.log| && buf < |s.buffers| && |packet| <= |s.buffers[buf]|
  {
    var c := DataCqe(s, entry, buf, packet, low);
    s.(free := s.free - {buf}, posted := s.posted + [c],
       buffers := s.buffers[buf := packet + s.buffers[buf][|packet|..]],
       arrivals := s.arrivals + [Arrival(ClientOf(c), packet)])
  }

  /**
   Any other completion of an entry it took: an end, an error, a poll event, a send result.  A real kernel
   completes a send once and says nothing after an end; here it may repeat itself, so there are more runs.
   */
  predicate CanComplete(s: State, entry: nat, result: int) {
    && entry < s.ring.consumed <= |s.ring.log|
    && (s.ring.log[entry].op.RecvMulti? || s.ring.log[entry].op.PollAdd? || s.ring.log[entry].op.Send?)
    && (s.ring.log[entry].op.RecvMulti? ==> result <= 0)
  }

  // ----- when a step can be taken

  /** The ring has room for what a release pushes; without it the source retries forever. */
  predicate ReleaseFits(s: State, more: nat) { |s.released| + more <= s.ring.Room() }

  predicate CanProcess(s: State, c: Cqe) {
    match DispatchOf(s, c)
    case Accept => c.result > 0 ==> s.nextId < ID_LIMIT
    case Response(Release) => ReleaseFits(s, 0)
    case Response(Reply(client)) =>
      (|s.released| + 1 == RELEASE_AT ==> ReleaseFits(s, 1)) && ReplyFits(s, client, c)
    case _ => true
  }

  predicate CanDrain(s: State) {
    s.phase == Draining && s.visible != [] && CanProcess(s, s.visible[0])
  }

  /** The output buffer has room for the answers; without it the source writes past its end. */
  predicate ReplyFits(s: State, client: nat, c: Cqe) {
    Addressable(s, client, c.flags, c.result) ==> Fits(s, client, s.buffers[BufOf(c.flags)][..c.result])
  }

  ghost predicate Enabled(s: State, e: Event) {
    match e
    case KernelTakes(n) => s.ring.consumed <= n <= s.ring.synced
    case KernelAccepts(fd) => fd <= 0 || fd !in s.openFds
    case KernelAcks => true
    case KernelReceives(entry, buf, packet, low) => CanReceive(s, entry, buf, packet, low)
    case KernelCompletes(entry, result, flags) => CanComplete(s, entry, result)
    case LoopTop(clock, date) =>
      s.phase == Head && |date| == Response.DATE_LEN && |Sends(s)| <= s.ring.Room()
    case LoopWait => s.phase == Synced
    case LoopDrain => CanDrain(s)
    case LoopEnd => s.phase == Draining && s.visible == [] && (s.rps == 0 ==> ReleaseFits(s, 0))
  }

  // ----- the unchecked accesses of a drain are safe

  lemma PendingHead(s: State)
    requires s.visible != []
    ensures Pending(s) == [s.visible[0]] + Pending(Pop(s))
  {
    assert s.visible == [s.visible[0]] + s.visible[1..];
  }

  /** A reply is only ever decided for a received packet. */
  lemma ReplyMeansData(s: State, c: Cqe)
    requires CqeOk(c, s.fdOf, s.ubdma)
    requires DispatchOf(s, c).Response? && DispatchOf(s, c).action.Reply?
    ensures IsData(c) && DispatchOf(s, c).action.client == ClientOf(c)
    ensures c.result <= BUFFER_SIZE && BufOf(c.flags) < BUFFERS_COUNT
  {
    hide Unpack, Pack, BufOf;
  }

  lemma CloseMeansCloses(s: State, c: Cqe)
    requires CqeOk(c, s.fdOf, s.ubdma)
    requires DispatchOf(s, c).Response? && DispatchOf(s, c).action.Close?
    ensures Closes(c, DispatchOf(s, c).action.client) && DispatchOf(s, c).action.client in s.fdOf
  {
    hide Unpack, Pack;
  }

  lemma OthersAreNoData(s: State, c: Cqe)
    requires CqeOk(c, s.fdOf, s.ubdma)
    requires !(DispatchOf(s, c).Response? && DispatchOf(s, c).action.Reply?)
    ensures !IsData(c)
    ensures DispatchOf(s, c).Response? && DispatchOf(s, c).action.Poll? ==> s.ubdma
  {
    hide Unpack, Pack;
  }

  lemma ReplyAddressable(s: State, c: Cqe, q: seq<Cqe>)
    requires Core(s, [c] + q) && IsData(c) && c.result <= BUFFER_SIZE && BufOf(c.flags) < BUFFERS_COUNT
    ensures ClientOf(c) in s.out && Addressable(s, ClientOf(c), c.flags, c.result)
  {
    hide Tables, Entries, Cursors, QueueOk, Live, Pool, Arrived, Output, Counters, ClientOf, BufOf, Closes;
    DropLive(c, q, s.out.Keys);
  }

  /** No drain of a reachable state leaves a table or a buffer. */
  lemma DrainIsSafe(s: State)
    requires Core(s, Pending(s)) && s.visible != []
    ensures Safe(Pop(s), s.visible[0])
  {
    var c, s1 := s.visible[0], Pop(s);
    PendingHead(s);
    hide Core, DispatchOf, IsData, Addressable, Pending;
    PopCore(s, Pending(s));
    assert Core(s1, [c] + Pending(s1));
    CoreParts(s1, [c] + Pending(s1));
    DropQueue(c, Pending(s1), s1.fdOf, s1.ubdma);
    if DispatchOf(s1, c).Response? && DispatchOf(s1, c).action.Reply? {
      ReplyMeansData(s1, c);
      ReplyAddressable(s1, c, Pending(s1));
    }
  }

  lemma PopCore(s: State, q: seq<Cqe>)
    requires Core(s, q) && s.visible != []
    ensures Core(Pop(s), q)
  {
    hide Core, Tables, Entries, Cursors, QueueOk, Live, Pool, Buffers, Arrived, Output, Capacity, Counters;
    CoreParts(s, q);
    CoreFrom(Pop(s), q);
  }

  // ----- a step

  ghost function Step(s: State, e: Event): (r: State)
    requires Inv(s) && Enabled(s, e)
  {
    match e
    case KernelTakes(n) => s.(ring := s.ring.(consumed := n))
    case KernelAccepts(fd) =>
      s.(posted := s.posted + [Cqe(CODE_ACCEPT, fd, 0)], openFds := if fd > 0 then s.openFds + {fd} else s.openFds)
    case KernelAcks => s.(posted := s.posted + [Cqe(BUFFER_REGISTER_CODE, 0, 0)])
    case KernelReceives(entry, buf, packet, low) => Receive(s, entry, buf, packet, low)
    case KernelCompletes(entry, result, flags) =>
      s.(posted := s.posted + [Cqe(s.ring.log[entry].userData, result, flags)])
    case LoopTop(clock, date) => Top(s, clock, date)
    case LoopWait => Wait(s)
    case LoopDrain => DrainIsSafe(s); Drain(s)
    case LoopEnd => End(s)
  }

  // ----- every step keeps the invariant

  lemma DrainKeeps(s: State)
    requires Inv(s) && CanDrain(s)
    ensures Safe(Pop(s), s.visible[0]) && Inv(Drain(s)) && Drain(s).ubdma == s.ubdma
    ensures HistoryGrows(Drain(s), s) && Drain(s).date == s.date
    ensures Connections(Drain(s), Pop(s), s.visible[0]) && Pending(Drain(s)) == Pending(Pop(s))
  {
    var c, q := s.visible[0], Pending(Pop(s));
    PendingHead(s);
    hide Core, ProcessEntry, CanProcess, Safe, CqeOk;
    PopCore(s, [c] + q);
    CanProcessPopped(s, c);
    ProcessKeeps(Pop(s), c, q);
  }

  lemma SameDispatch(s: State, c: Cqe)
    requires s.visible != []
    ensures DispatchOf(Pop(s), c) == DispatchOf(s, c)
  {
    hide Unpack;
  }

  lemma CanProcessPopped(s: State, c: Cqe)
    requires s.visible != [] && CanProcess(s, c)
    ensures CanProcess(Pop(s), c)
  {
    hide Unpack, Answers, Response.Stream, BufOf;
  }

  lemma ProcessKeeps(s: State, c: Cqe, q: seq<Cqe>)
    requires Core(s, [c] + q) && |s.released| < RELEASE_AT && CanProcess(s, c)
    ensures Safe(s, c)
    ensures var r := ProcessEntry(s, c);
      && Core(r, q) && |r.released| < RELEASE_AT
      && SameQueue(r, s) && Connections(r, s, c) && HistoryGrows(r, s) && r.date == s.date
  {
    hide Core, DispatchOf, IsData, Closes, Addressable, ReplyFits, ReleaseFits, CqeOk, Buffers, Live;
    hide ReleaseBuffers, ProcessEntryAccept, CloseConnection, Ubdma, RequestReply, Entries, Pool, Tables, Output;
    CoreParts(s, [c] + q);
    DropQueue(c, q, s.fdOf, s.ubdma);
    SeenBuffer(s);
    var d := DispatchOf(s, c);
    if d.Response? && d.action.Reply? {
      ReplyMeansData(s, c);
      DrainReply(s, c, q);
    } else if d.Response? && d.action.Close? {
      CloseMeansCloses(s, c);
      TableRange(s, [c] + q, d.action.client);
      CloseKeeps(s, c, q, d.action.client);
      CloseFrame(s, d.action.client);
    } else {
      OthersAreNoData(s, c);
      DropCqe(s, c, q);
      if d.Accept? {
        AcceptKeeps(s, c.result, q);
        AcceptFrame(s, c.result);
      } else if d.Response? && d.action.Release? {
        ReleaseKeeps(s, q);
        ReleaseFrame(s);
      } else if d.Response? && d.action.Poll? {
        UbdmaKeeps(s, d.action.client, q);
        UbdmaFrame(s, d.action.client);
      }
    }
  }

  lemma SeenBuffer(s: State)
    requires Buffers(s.buffers, s.lastBuf)
    ensures s.lastBuf.Some? ==> s.lastBuf.value < |s.buffers|
  {
  }

  lemma TableRange(s: State, q: seq<Cqe>, client: nat)
    requires Core(s, q) && client in s.fdOf
    ensures RESERVED <= client < s.nextId <= ID_LIMIT
    ensures client in s.fds ==> s.fds[client] != 0
  {
    hide Entries, Cursors, QueueOk, Live, Pool, Buffers, Arrived, Output, Capacity, Counters;
  }

  // ----- what the handlers leave alone

  /** Completion queue and phase, and the mode. */
  ghost predicate SameQueue(r: State, s: State) {
    r.ubdma == s.ubdma && r.visible == s.visible && r.posted == s.posted && r.phase == s.phase
  }

  /** The connection table, the open descriptors, and who has an output buffer. */
  ghost predicate SameConnections(r: State, s: State) {
    r.fds == s.fds && r.openFds == s.openFds && r.out.Keys == s.out.Keys
  }

  /** The history of answers, and the date they carry. */
  ghost predicate SameHistory(r: State, s: State) {
    r.handled == s.handled && r.date == s.date
  }

  /** At most one answer is added to the history, under the current date. */
  ghost predicate HistoryGrows(r: State, s: State) {
    r.handled == s.handled || exists a: Arrival :: r.handled == s.handled + [Handled(a, s.date)]
  }

  /** What a drained completion does to the connections. */
  ghost predicate Connections(r: State, s: State, c: Cqe) {
    match DispatchOf(s, c)
    case Accept =>
      if c.result > 0
      then r.fds == s.fds[s.nextId := c.result] && r.out.Keys == s.out.Keys + {s.nextId} && r.openFds == s.openFds
      else SameConnections(r, s)
    case Response(Close(client)) =>
      && r.fds == s.fds - {client} && r.out.Keys == s.out.Keys - {client}
      && r.openFds == s.openFds - {if client in s.fds then s.fds[client] else 0xFF}
    case _ => SameConnections(r, s)
  }

  lemma AcceptFrame(s: State, result: int)
    ensures var r := ProcessEntryAccept(s, result);
      SameQueue(r, s) && SameHistory(r, s) && r.released == s.released && r.openFds == s.openFds
    ensures var r := ProcessEntryAccept(s, result);
      if result > 0 then r.fds == s.fds[s.nextId := result] && r.out.Keys == s.out.Keys + {s.nextId}
      else r.fds == s.fds && r.out.Keys == s.out.Keys
  {
    hide Tag;
  }

  lemma ReleaseFrame(s: State)
    ensures var r := ReleaseBuffers(s);
      SameQueue(r, s) && SameConnections(r, s) && SameHistory(r, s) && r.released == []
  {
    hide Returned;
  }

  lemma CloseFrame(s: State, client: nat)
    requires client in s.fds ==> s.fds[client] != 0
    ensures var r := CloseConnection(s, client);
      SameQueue(r, s) && SameHistory(r, s) && r.released == s.released
      && r.fds == s.fds - {client} && r.out.Keys == s.out.Keys - {client}
    ensures CloseConnection(s, client).openFds == s.openFds - {if client in s.fds then s.fds[client] else 0xFF}
  {
  }

  lemma UbdmaFrame(s: State, client: nat)
    requires s.lastBuf.Some? ==> s.lastBuf.value < |s.buffers|
    ensures var r := Ubdma(s, client);
      SameQueue(r, s) && SameConnections(r, s) && SameHistory(r, s) && r.released == s.released
  {
    hide Answers;
  }

  lemma DrainReply(s: State, c: Cqe, q: seq<Cqe>)
    requires Core(s, [c] + q) && |s.released| < RELEASE_AT && CqeOk(c, s.fdOf, s.ubdma)
    requires DispatchOf(s, c).Response? && DispatchOf(s, c).action.Reply?
    requires ReplyFits(s, ClientOf(c), c)
    ensures Safe(s, c)
    ensures var r := ProcessEntry(s, c);
      && Core(r, q) && |r.released| < RELEASE_AT
      && SameQueue(r, s) && SameConnections(r, s) && HistoryGrows(r, s) && r.date == s.date
  {
    hide Core, DispatchOf, IsData, Fits, RequestReply, BufOf, Addressable, CqeOk, ClientOf;
    ReplyMeansData(s, c);
    ReplyAddressable(s, c, q);
    AddressableMeans(s, ClientOf(c), c.flags, c.result);
    RequestReplyKeeps(s, c, q);
  }

  lemma AddressableMeans(s: State, client: nat, flags: nat, result: int)
    requires Addressable(s, client, flags, result)
    ensures BufOf(flags) < |s.buffers| && 0 <= result <= |s.buffers[BufOf(flags)]| && client in s.unflushed
  {
  }

  lemma RequestReplyKeeps(s: State, c: Cqe, q: seq<Cqe>)
    requires Core(s, [c] + q) && IsData(c) && |s.released| < RELEASE_AT
    requires c.result <= BUFFER_SIZE && BufOf(c.flags) < BUFFERS_COUNT
    requires ClientOf(c) in s.out && Addressable(s, ClientOf(c), c.flags, c.result)
    requires Fits(s, ClientOf(c), s.buffers[BufOf(c.flags)][..c.result])
    ensures var r := RequestReply(s, c.flags, ClientOf(c), c.result);
      && Core(r, q) && |r.released| < RELEASE_AT
      && SameQueue(r, s) && SameConnections(r, s) && HistoryGrows(r, s) && r.date == s.date
  {
    hide Core, IsData, ReleaseBuffers, Reply1, BufOf, ClientOf, Fits;
    ReplyKeeps(s, c, q);
    ReplyFrame(s, c.flags, ClientOf(c), c.result);
    var s2 := Reply1(s, c.flags, ClientOf(c), c.result);
    ReleaseKeeps(s2, q);
    ReleaseFrame(s2);
  }

  lemma ReplyFrame(s: State, flags: nat, client: nat, result: nat)
    requires Addressable(s, client, flags, result)
    ensures var r := Reply1(s, flags, client, result);
      && SameQueue(r, s) && SameConnections(r, s)
      && r.date == s.date
      && r.handled == s.handled + [Handled(Arrival(client, s.buffers[BufOf(flags)][..result]), s.date)]
      && |r.released| == |s.released| + 1
  {
    hide Answers, AfterReply, BufOf;
  }

  lemma TopKeeps(s: State, clock: int, date: seq<byte>)
    requires Inv(s) && s.phase == Head && |date| == Response.DATE_LEN
    ensures Inv(Top(s, clock, date)) && Top(s, clock, date).ubdma == s.ubdma
    ensures var r := Top(s, clock, date);
      r.handled == s.handled && (r.date == s.date || r.date == date) && SameConnections(r, s) && Pending(r) == Pending(s)
  {
    hide Core, WidebandSend, Metrics;
    var q := Pending(s);
    var s1 := Metrics(s, clock, date);
    MetricsKeeps(s, clock, date, q);
    MetricsFrame(s, clock, date);
    FlushKeeps(s1, q);
    FlushFrame(s1);
    SyncPointKeeps(WidebandSend(s1), q);
  }

  lemma MetricsFrame(s: State, clock: int, date: seq<byte>)
    ensures var r := Metrics(s, clock, date);
      SameQueue(r, s) && SameConnections(r, s) && r.handled == s.handled && r.released == s.released
      && r.date == (if clock == s.clock then s.date else date)
  {
  }

  lemma MetricsKeeps(s: State, clock: int, date: seq<byte>, q: seq<Cqe>)
    requires Core(s, q) && |date| == Response.DATE_LEN
    ensures Core(Metrics(s, clock, date), q)
  {
    hide Core, Tables, Entries, Cursors, QueueOk, Live, Pool, Buffers, Arrived, Output, Capacity, Total;
    if clock == s.clock {
      assert Metrics(s, clock, date) == s;
    } else {
      CoreParts(s, q);
      CoreFrom(Metrics(s, clock, date), q);
    }
  }

  lemma FlushFrame(s: State)
    ensures var r := WidebandSend(s);
      SameQueue(r, s) && SameConnections(r, s) && SameHistory(r, s) && r.released == s.released
  {
    hide SendsFrom;
  }

  /** The sync point leaves nothing unsynced, whether or not the flag was up. */
  lemma SyncPointKeeps(s: State, q: seq<Cqe>)
    requires Core(s, q)
    ensures var r := s.(ring := if s.syncNow then s.ring.Sync() else s.ring, syncNow := false, phase := Synced);
      Core(r, q) && r.ring.synced == |r.ring.log|
  {
    hide Core, Tables, Entries, QueueOk, Live, Pool, Buffers, Arrived, Output, Capacity, Counters;
    CoreParts(s, q);
    CoreFrom(s.(ring := if s.syncNow then s.ring.Sync() else s.ring, syncNow := false, phase := Synced), q);
  }

  lemma PhaseKeeps(s: State, phase: Phase, q: seq<Cqe>)
    requires Core(s, q)
    ensures Core(s.(phase := phase), q)
  {
    hide Core, Tables, Entries, Cursors, QueueOk, Live, Pool, Buffers, Arrived, Output, Capacity, Counters;
    CoreParts(s, q);
    CoreFrom(s.(phase := phase), q);
  }

  lemma WaitKeeps(s: State)
    requires Inv(s) && s.phase == Synced
    ensures Inv(Wait(s)) && Wait(s).ubdma == s.ubdma
    ensures SameHistory(Wait(s), s) && SameConnections(Wait(s), s) && Pending(Wait(s)) == Pending(s)
  {
    hide Core, Tables, Entries, QueueOk, Live, Pool, Buffers, Arrived, Output, Capacity, Counters;
    assert Pending(Wait(s)) == Pending(s);
    CoreParts(s, Pending(s));
    CoreFrom(Wait(s), Pending(s));
  }

  lemma EndKeeps(s: State)
    requires Inv(s) && s.phase == Draining && s.visible == []
    ensures Inv(End(s)) && End(s).ubdma == s.ubdma
    ensures SameHistory(End(s), s) && SameConnections(End(s), s) && Pending(End(s)) == Pending(s)
  {
    hide Core, ReleaseBuffers;
    var q := Pending(s);
    ReleaseKeeps(s, q);
    ReleaseFrame(s);
    PhaseKeeps(s, Head, q);
    PhaseKeeps(ReleaseBuffers(s), Head, q);
  }

  // ----- the kernel's steps

  lemma PostKeeps(s: State, c: Cqe, openFds: set<int>)
    requires Inv(s) && CqeOk(c, s.fdOf, s.ubdma) && !IsData(c)
    ensures Inv(s.(posted := s.posted + [c], openFds := openFds))
  {
    var q, s' := Pending(s), s.(posted := s.posted + [c], openFds := openFds);
    assert Pending(s') == q + [c];
    hide Core, Tables, Entries, Cursors, QueueOk, Live, Pool, Buffers, Arrived, Output, Capacity, Counters, CqeOk, IsData;
    CoreParts(s, q);
    PostQueue(q, c, s.fdOf, s.ubdma);
    PostLive(q, c, s.out.Keys);
    PostPool(q, c, s.free, s.released);
    PostArrived(q, c, s);
    CoreFrom(s', q + [c]);
  }

  lemma PostQueue(q: seq<Cqe>, c: Cqe, fdOf: map<nat, int>, ubdma: bool)
    requires QueueOk(q, fdOf, ubdma) && CqeOk(c, fdOf, ubdma)
    ensures QueueOk(q + [c], fdOf, ubdma)
  {
    hide CqeOk;
  }

  lemma PostLive(q: seq<Cqe>, c: Cqe, clients: set<nat>)
    requires Live(q, clients)
    requires IsData(c) ==> ClientOf(c) in clients && forall i :: 0 <= i < |q| ==> !Closes(q[i], ClientOf(c))
    ensures Live(q + [c], clients)
  {
    hide IsData, ClientOf, Closes;
  }

  lemma PostPool(q: seq<Cqe>, c: Cqe, free: set<nat>, released: seq<nat>)
    requires Pool(free, released, q) && !IsData(c)
    ensures Pool(free, released, q + [c])
  {
    BufsSnoc(q, c);
    assert BufsOf(q) + [] == BufsOf(q);
    hide BufsOf, IsData;
  }

  lemma PostArrived(q: seq<Cqe>, c: Cqe, s: State)
    requires Arrived(s.arrivals, s.handled, q, s.buffers) && !IsData(c)
    ensures Arrived(s.arrivals, s.handled, q + [c], s.buffers)
  {
    InFlightSnoc(q, c, s.buffers);
    assert InFlight(q, s.buffers) + [] == InFlight(q, s.buffers);
  }

  /** A connection entry's user data decodes to its own client and operation. */
  lemma EntryDecodes(s: State, entry: nat, result: int, flags: nat)
    requires Entries(s.ring.log, s.fdOf, s.ubdma) && entry < |s.ring.log|
    requires s.ring.log[entry].op.RecvMulti? || s.ring.log[entry].op.PollAdd? || s.ring.log[entry].op.Send?
    ensures var c := Cqe(s.ring.log[entry].userData, result, flags);
      && IsResponse(c) && ClientOf(c) in s.fdOf
      && CodeOf(c) == (if s.ring.log[entry].op.RecvMulti? then INIT_REQUEST else if s.ring.log[entry].op.PollAdd? then POLL_EVENT else SEND_EVENT)
      && (CodeOf(c) == POLL_EVENT ==> s.ubdma)
  {
    hide Tag, Unpack;
    assert EntryOk(s.ring.log[entry], s.fdOf, s.ubdma);
  }

  lemma CompletesOk(s: State, entry: nat, result: int, flags: nat)
    requires Entries(s.ring.log, s.fdOf, s.ubdma) && CanComplete(s, entry, result)
    ensures var c := Cqe(s.ring.log[entry].userData, result, flags);
      CqeOk(c, s.fdOf, s.ubdma) && !IsData(c)
  {
    hide IsResponse, ClientOf, CodeOf;
    EntryDecodes(s, entry, result, flags);
  }

  lemma FlagsDecode(buf: nat, low: nat)
    requires buf < 0x1_0000 && low < 0x1_0000
    ensures BufOf(buf * 0x1_0000 + low) == buf
  {
  }

  lemma ReceiveKeeps(s: State, entry: nat, buf: nat, packet: seq<byte>, low: nat)
    requires Inv(s) && CanReceive(s, entry, buf, packet, low)
    ensures buf < |s.buffers| && |packet| <= |s.buffers[buf]| && Inv(Receive(s, entry, buf, packet, low))
    ensures var r := Receive(s, entry, buf, packet, low);
      r.ubdma == s.ubdma && SameHistory(r, s) && SameConnections(r, s)
      && Pending(r) == Pending(s) + [DataCqe(s, entry, buf, packet, low)]
  {
    var q, c := Pending(s), DataCqe(s, entry, buf, packet, low);
    hide Core, Entries, QueueOk, Live, Pool, Arrived, Output, Capacity, Counters, Tables, ClientOf, BufOf, IsResponse, CodeOf;
    CoreParts(s, q);
    FreeBuffer(s.free, s.released, q, buf);
    FlagsDecode(buf, low);
    EntryDecodes(s, entry, |packet|, buf * 0x1_0000 + low);
    var s' := Receive(s, entry, buf, packet, low);
    assert Pending(s') == q + [c];
    assert IsData(c) && CqeOk(c, s.fdOf, s.ubdma);
    hide Buffers, IsData, CqeOk;
    PostQueue(q, c, s.fdOf, s.ubdma);
    PostLive(q, c, s.out.Keys);
    ReceivePool(q, c, s.free, s.released);
    ReceiveBuffers(s.buffers, s.lastBuf, buf, packet);
    ReceiveArrived(s, q, c, buf, packet);
    CoreFrom(s', q + [c]);
  }

  lemma FreeBuffer(free: set<nat>, released: seq<nat>, q: seq<Cqe>, buf: nat)
    requires Pool(free, released, q) && buf in free
    ensures buf < BUFFERS_COUNT && buf !in BufsOf(q)
  {
    hide BufsOf;
    forall i | 0 <= i < |BufsOf(q)| ensures BufsOf(q)[i] != buf {
      assert BufsOf(q)[i] in released + BufsOf(q) by {
        assert (released + BufsOf(q))[|released| + i] == BufsOf(q)[i];
      }
    }
  }

  lemma ReceivePool(q: seq<Cqe>, c: Cqe, free: set<nat>, released: seq<nat>)
    requires Pool(free, released, q) && IsData(c) && BufOf(c.flags) in free
    ensures Pool(free - {BufOf(c.flags)}, released, q + [c])
  {
    BufsSnoc(q, c);
    hide BufsOf, IsData, BufOf;
    var b, held := BufOf(c.flags), released + BufsOf(q);
    assert released + (BufsOf(q) + [b]) == held + [b];
  }

  lemma ReceiveBuffers(buffers: seq<seq<byte>>, lastBuf: Option<nat>, buf: nat, packet: seq<byte>)
    requires Buffers(buffers, lastBuf) && buf < BUFFERS_COUNT && |packet| <= BUFFER_SIZE
    ensures Buffers(buffers[buf := packet + buffers[buf][|packet|..]], lastBuf)
  {
  }

  lemma ReceiveArrived(s: State, q: seq<Cqe>, c: Cqe, buf: nat, packet: seq<byte>)
    requires Arrived(s.arrivals, s.handled, q, s.buffers) && Buffers(s.buffers, s.lastBuf)
    requires buf < BUFFERS_COUNT && buf !in BufsOf(q) && |packet| <= BUFFER_SIZE
    requires IsData(c) && BufOf(c.flags) == buf && c.result == |packet|
    ensures Arrived(s.arrivals + [Arrival(ClientOf(c), packet)], s.handled, q + [c],
                    s.buffers[buf := packet + s.buffers[buf][|packet|..]])
  {
    var content := packet + s.buffers[buf][|packet|..];
    var buffers := s.buffers[buf := content];
    InFlightFrame(q, s.buffers, buf, content);
    InFlightSnoc(q, c, buffers);
    hide BufsOf, InFlight, IsData, ClientOf, BufOf;
    assert content[..|packet|] == packet;
    assert ArrivalOf(c, buffers) == Arrival(ClientOf(c), packet);
    assert (ArrivalsOf(s.handled) + InFlight(q, s.buffers)) + [Arrival(ClientOf(c), packet)]
      == ArrivalsOf(s.handled) + (InFlight(q, s.buffers) + [Arrival(ClientOf(c), packet)]);
  }

  lemma TakesKeeps(s: State, n: nat)
    requires Inv(s) && s.ring.consumed <= n <= s.ring.synced
    ensures Inv(s.(ring := s.ring.(consumed := n)))
  {
    hide Core, Tables, Entries, QueueOk, Live, Pool, Buffers, Arrived, Output, Capacity, Counters;
    CoreParts(s, Pending(s));
    CoreFrom(s.(ring := s.ring.(consumed := n)), Pending(s));
  }

  lemma AcceptsOk(s: State, fd: int)
    requires Inv(s)
    ensures Inv(s.(posted := s.posted + [Cqe(CODE_ACCEPT, fd, 0)], openFds := if fd > 0 then s.openFds + {fd} else s.openFds))
  {
    hide Inv;
    PostKeeps(s, Cqe(CODE_ACCEPT, fd, 0), if fd > 0 then s.openFds + {fd} else s.openFds);
  }

  lemma AcksOk(s: State)
    requires Inv(s)
    ensures Inv(s.(posted := s.posted + [Cqe(BUFFER_REGISTER_CODE, 0, 0)]))
  {
    hide Inv;
    PostKeeps(s, Cqe(BUFFER_REGISTER_CODE, 0, 0), s.openFds);
  }

  lemma CompletesKeeps(s: State, entry: nat, result: int, flags: nat)
    requires Inv(s) && CanComplete(s, entry, result)
    ensures Inv(s.(posted := s.posted + [Cqe(s.ring.log[entry].userData, result, flags)]))
  {
    hide Core, CqeOk, IsData;
    CoreParts(s, Pending(s));
    CompletesOk(s, entry, result, flags);
    PostKeeps(s, Cqe(s.ring.log[entry].userData, result, flags), s.openFds);
  }

  /** Every step of the server and of the kernel keeps every invariant, and the mode. */
  lemma StepKeeps(s: State, e: Event)
    requires Inv(s) && Enabled(s, e)
    ensures Inv(Step(s, e)) && Step(s, e).ubdma == s.ubdma
    ensures HistoryGrows(Step(s, e), s)
    ensures Step(s, e).date == s.date || (e.LoopTop? && Step(s, e).date == e.date)
  {
    hide Inv, CqeOk, CanReceive, CanComplete, CanDrain, Top, Wait, Drain, End, Receive;
    match e
    case KernelTakes(n) => TakesKeeps(s, n);
    case KernelAccepts(fd) => AcceptsOk(s, fd);
    case KernelAcks => AcksOk(s);
    case KernelReceives(entry, buf, packet, low) => ReceiveKeeps(s, entry, buf, packet, low);
    case KernelCompletes(entry, result, flags) => CompletesKeeps(s, entry, result, flags);
    case LoopTop(clock, date) => TopKeeps(s, clock, date);
    case LoopWait => WaitKeeps(s);
    case LoopDrain => DrainKeeps(s);
    case LoopEnd => EndKeeps(s);
  }
}
