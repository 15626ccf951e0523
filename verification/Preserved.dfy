/** Every handler keeps the invariants: one lemma a handler, one a kernel step. */
module Preserved {
  import opened Bytes
  import opened ServerInternals
  import opened Machine
  import opened Invariants
  import opened Histories
  import Response
  import Shift
  import Trim

  // ----- taking a completion off the queue

  /** A completion that is no packet can be dropped. */
  lemma DropCqe(s: State, c: Cqe, q: seq<Cqe>)
    requires Core(s, [c] + q) && !IsData(c)
    ensures Core(s, q)
  {
    hide *;
    CoreParts(s, [c] + q);
    Consed(c, q, s.buffers);
    DropQueue(c, q, s.fdOf, s.ubdma);
    DropLive(c, q, s.out.Keys);
    DropPool(c, q, s.free, s.released);
    DropArrived(c, q, s);
    CoreFrom(s, q);
  }

  lemma DropQueue(c: Cqe, q: seq<Cqe>, fdOf: map<nat, int>, ubdma: bool)
    requires QueueOk([c] + q, fdOf, ubdma)
    ensures QueueOk(q, fdOf, ubdma) && CqeOk(c, fdOf, ubdma)
  {
    hide CqeOk;
    assert ([c] + q)[0] == c;
    forall i | 0 <= i < |q| ensures CqeOk(q[i], fdOf, ubdma) { assert ([c] + q)[i + 1] == q[i]; }
  }

  lemma DropLive(c: Cqe, q: seq<Cqe>, clients: set<nat>)
    requires Live([c] + q, clients)
    ensures Live(q, clients)
    ensures IsData(c) ==> ClientOf(c) in clients
    ensures forall i :: 0 <= i < |q| && IsData(q[i]) ==> !Closes(c, ClientOf(q[i]))
  {
    hide IsData, Closes, ClientOf;
    var all := [c] + q;
    assert all[0] == c;
    forall i | 0 <= i < |q| && IsData(q[i])
      ensures ClientOf(q[i]) in clients && !Closes(c, ClientOf(q[i]))
      ensures forall j :: 0 <= j < i ==> !Closes(q[j], ClientOf(q[i]))
    {
      assert all[i + 1] == q[i];
      forall j | 0 <= j < i ensures !Closes(q[j], ClientOf(q[i])) { assert all[j + 1] == q[j]; }
    }
  }

  lemma DropPool(c: Cqe, q: seq<Cqe>, free: set<nat>, released: seq<nat>)
    requires Pool(free, released, [c] + q) && !IsData(c)
    ensures Pool(free, released, q)
  {
    Consed(c, q, []);
    assert [] + BufsOf(q) == BufsOf(q);
    hide BufsOf, IsData;
  }

  lemma DropArrived(c: Cqe, q: seq<Cqe>, s: State)
    requires Arrived(s.arrivals, s.handled, [c] + q, s.buffers) && !IsData(c)
    ensures Arrived(s.arrivals, s.handled, q, s.buffers)
  {
    Consed(c, q, s.buffers);
    assert [] + InFlight(q, s.buffers) == InFlight(q, s.buffers);
  }

  // ----- the conjuncts of Core, in and out

  lemma CoreParts(s: State, q: seq<Cqe>)
    requires Core(s, q)
    ensures Tables(s.fds, s.nextId, s.out, s.fdOf)
    ensures Entries(s.ring.log, s.fdOf, s.ubdma)
    ensures Cursors(s.ring, s.syncNow)
    ensures QueueOk(q, s.fdOf, s.ubdma)
    ensures Live(q, s.out.Keys)
    ensures Pool(s.free, s.released, q)
    ensures Buffers(s.buffers, s.lastBuf)
    ensures Arrived(s.arrivals, s.handled, q, s.buffers)
    ensures !s.ubdma ==> Output(s.ring.log, s.out, s.handled, s.nextId)
    ensures Capacity(s.out, s.unflushed)
    ensures Counters(s.ubdma, s.published, s.rpsAcc, s.served, s.handled)
    ensures |s.date| == Response.DATE_LEN
  {
  }

  lemma CoreFrom(s: State, q: seq<Cqe>)
    requires Tables(s.fds, s.nextId, s.out, s.fdOf)
    requires Entries(s.ring.log, s.fdOf, s.ubdma)
    requires Cursors(s.ring, s.syncNow)
    requires QueueOk(q, s.fdOf, s.ubdma)
    requires Live(q, s.out.Keys)
    requires Pool(s.free, s.released, q)
    requires Buffers(s.buffers, s.lastBuf)
    requires Arrived(s.arrivals, s.handled, q, s.buffers)
    requires !s.ubdma ==> Output(s.ring.log, s.out, s.handled, s.nextId)
    requires Capacity(s.out, s.unflushed)
    requires Counters(s.ubdma, s.published, s.rpsAcc, s.served, s.handled)
    requires |s.date| == Response.DATE_LEN
    ensures Core(s, q)
  {
  }

  // ----- returning buffers

  lemma ReleaseKeeps(s: State, q: seq<Cqe>)
    requires Core(s, q)
    ensures Core(ReleaseBuffers(s), q)
    ensures ReleaseBuffers(s).released == []
  {
    hide Entries, Pool, Output, Core;
    CoreParts(s, q);
    if s.released != [] {
      var s' := ReleaseBuffers(s);
      ReleasePool(s.free, s.released, q);
      ProvidesOwned(s, q);
      AppendEntries(s.ring.log, Provides(s.released), s.fdOf, s.ubdma);
      if !s.ubdma {
        ProvidesSilent(s.released);
        AppendSilent(s.ring.log, Provides(s.released), s.out, s.handled, s.nextId);
      }
      CoreFrom(s', q);
    }
  }

  lemma ReleasePool(free: set<nat>, released: seq<nat>, q: seq<Cqe>)
    requires Pool(free, released, q)
    ensures Pool(free + (set b | b in released), [], q)
  {
    hide BufsOf;
    var bufs := BufsOf(q);
    var held := released + bufs;
    assert [] + bufs == bufs;
    forall i, j | 0 <= i < j < |bufs| ensures bufs[i] != bufs[j] {
      assert held[|released| + i] == bufs[i] && held[|released| + j] == bufs[j];
    }
    forall b | b in bufs ensures b !in released {
      var j :| 0 <= j < |bufs| && bufs[j] == b;
      forall i | 0 <= i < |released| ensures released[i] != b {
        assert held[i] == released[i] && held[|released| + j] == b;
      }
    }
    forall b: nat ensures b in held <==> b in released || b in bufs {
      InEither(released, bufs, b);
    }
  }

  lemma InEither(a: seq<nat>, b: seq<nat>, x: nat)
    ensures x in a + b <==> x in a || x in b
  {
  }

  lemma ProvidesOwned(s: State, q: seq<Cqe>)
    requires Core(s, q)
    ensures Entries(Provides(s.released), s.fdOf, s.ubdma)
  {
    forall i | 0 <= i < |s.released| ensures s.released[i] < BUFFERS_COUNT {
      assert s.released[i] in s.released + BufsOf(q);
    }
  }

  lemma ProvidesSilent(ids: seq<nat>)
    ensures forall c :: Queued(Provides(ids), c) == []
  {
    forall c ensures Queued(Provides(ids), c) == [] { QueuedNone(Provides(ids), c); }
  }

  lemma AppendEntries(sq: seq<Sqe>, more: seq<Sqe>, fdOf: map<nat, int>, ubdma: bool)
    requires Entries(sq, fdOf, ubdma) && Entries(more, fdOf, ubdma)
    ensures Entries(sq + more, fdOf, ubdma)
  {
    hide EntryOk;
  }

  /** Entries that send nothing leave every output as it was. */
  lemma AppendSilent(sq: seq<Sqe>, more: seq<Sqe>, out: map<nat, seq<byte>>, handled: seq<Handled>, nextId: nat)
    requires Output(sq, out, handled, nextId)
    requires forall c :: Queued(more, c) == []
    ensures Output(sq + more, out, handled, nextId)
  {
    hide Queued, Owed, Response.Stream;
    forall c: nat | c < ID_LIMIT ensures OutputOf(sq + more, out, handled, c) {
      assert OutputOf(sq, out, handled, c);
      QueuedConcat(sq, more, c);
    }
  }

  // ----- accepting

  /** A new connection enters the tables under the next id. */
  function Enter(s: State, fd: int): State {
    var id := s.nextId;
    s.(fds := s.fds[id := fd], nextId := id + 1, out := s.out[id := []],
       fdOf := s.fdOf[id := fd], unflushed := s.unflushed[id := 0], syncNow := true)
  }

  lemma AcceptKeeps(s: State, result: int, q: seq<Cqe>)
    requires Core(s, q)
    requires result > 0 ==> s.nextId < ID_LIMIT
    ensures Core(ProcessEntryAccept(s, result), q)
  {
    hide Core, Tag, EntryOk;
    if result > 0 {
      var id, s1 := s.nextId, Enter(s, result);
      EnterKeeps(s, result, q);
      ConnectionEntries(id, result, s1.fdOf, s.ubdma);
      var poll, recv := Sqe(PollAdd(result), Tag(id, POLL_EVENT)), Sqe(RecvMulti(result), Tag(id, INIT_REQUEST));
      if s.ubdma {
        PushKeeps(s1, poll, q);
        var s2 := s1.(ring := s1.ring.Push(poll));
        SyncKeeps(s2, q);
        PushKeeps(s2.(ring := s2.ring.Sync()), recv, q);
      } else {
        PushKeeps(s1, recv, q);
      }
    }
  }

  lemma EnterKeeps(s: State, fd: int, q: seq<Cqe>)
    requires Core(s, q) && fd > 0 && s.nextId < ID_LIMIT
    ensures Core(Enter(s, fd), q)
    ensures var id := s.nextId; RESERVED <= id && Enter(s, fd).fdOf[id] == fd
  {
    hide Core, Entries, QueueOk, Live, Pool, Buffers, Arrived, Output, Counters;
    CoreParts(s, q);
    var s' := Enter(s, fd);
    WiderEntries(s.ring.log, s.fdOf, s.nextId, fd, s.ubdma);
    WiderQueue(q, s.fdOf, s.nextId, fd, s.ubdma);
    WiderLive(q, s.out.Keys, s'.out.Keys);
    if !s.ubdma {
      EnterOutput(s.ring.log, s.out, s.handled, s.nextId);
    }
    CoreFrom(s', q);
  }

  lemma WiderEntries(sq: seq<Sqe>, fdOf: map<nat, int>, id: nat, fd: int, ubdma: bool)
    requires Entries(sq, fdOf, ubdma) && id !in fdOf
    ensures Entries(sq, fdOf[id := fd], ubdma)
  {
    hide Tag, Unpack;
    forall i | 0 <= i < |sq| ensures EntryOk(sq[i], fdOf[id := fd], ubdma) {
      assert EntryOk(sq[i], fdOf, ubdma);
    }
  }

  lemma WiderQueue(q: seq<Cqe>, fdOf: map<nat, int>, id: nat, fd: int, ubdma: bool)
    requires QueueOk(q, fdOf, ubdma)
    ensures QueueOk(q, fdOf[id := fd], ubdma)
  {
    hide IsData, CodeOf, ClientOf, IsResponse;
    forall i | 0 <= i < |q| ensures CqeOk(q[i], fdOf[id := fd], ubdma) {
      assert CqeOk(q[i], fdOf, ubdma);
    }
  }

  lemma WiderLive(q: seq<Cqe>, clients: set<nat>, more: set<nat>)
    requires Live(q, clients) && clients <= more
    ensures Live(q, more)
  {
    hide IsData, Closes, ClientOf;
  }

  lemma EnterOutput(sq: seq<Sqe>, out: map<nat, seq<byte>>, handled: seq<Handled>, nextId: nat)
    requires Output(sq, out, handled, nextId) && nextId < ID_LIMIT && nextId !in out
    ensures Output(sq, out[nextId := []], handled, nextId + 1)
  {
    hide Queued, Owed;
    var out' := out[nextId := []];
    forall c: nat | c < ID_LIMIT ensures OutputOf(sq, out', handled, c) {
      assert OutputOf(sq, out, handled, c);
      if c == nextId {
        assert Response.Stream(Owed(handled, c)) == [];
        assert Queued(sq, c) + [] == [];
      }
    }
  }

  lemma ConnectionEntries(id: nat, fd: int, fdOf: map<nat, int>, ubdma: bool)
    requires RESERVED <= id < ID_LIMIT && id in fdOf && fdOf[id] == fd
    ensures ubdma ==> EntryOk(Sqe(PollAdd(fd), Tag(id, POLL_EVENT)), fdOf, ubdma)
    ensures EntryOk(Sqe(RecvMulti(fd), Tag(id, INIT_REQUEST)), fdOf, ubdma)
  {
    hide Tag, Unpack;
    TagReads(id, POLL_EVENT);
    TagReads(id, INIT_REQUEST);
  }

  lemma PushKeeps(s: State, e: Sqe, q: seq<Cqe>)
    requires Core(s, q) && s.syncNow && !e.op.Send? && EntryOk(e, s.fdOf, s.ubdma)
    ensures Core(s.(ring := s.ring.Push(e)), q)
  {
    hide Core, Tables, Entries, EntryOk, QueueOk, Live, Pool, Buffers, Arrived, Output, Capacity, Counters, Queued;
    CoreParts(s, q);
    if s.ring.Room() > 0 {
      OneEntry(e, s.fdOf, s.ubdma);
      AppendEntries(s.ring.log, [e], s.fdOf, s.ubdma);
      if !s.ubdma {
        forall c ensures Queued([e], c) == [] { QueuedNone([e], c); }
        AppendSilent(s.ring.log, [e], s.out, s.handled, s.nextId);
      }
      CoreFrom(s.(ring := s.ring.Push(e)), q);
    }
  }

  lemma OneEntry(e: Sqe, fdOf: map<nat, int>, ubdma: bool)
    requires EntryOk(e, fdOf, ubdma)
    ensures Entries([e], fdOf, ubdma)
  {
    hide EntryOk;
  }

  lemma SyncKeeps(s: State, q: seq<Cqe>)
    requires Core(s, q)
    ensures Core(s.(ring := s.ring.Sync()), q)
  {
    hide Core, Tables, Entries, QueueOk, Live, Pool, Buffers, Arrived, Output, Capacity, Counters;
    CoreParts(s, q);
    CoreFrom(s.(ring := s.ring.Sync()), q);
  }

  // ----- closing

  /** Closing keeps the invariants because nothing waits behind the closing completion for its client. */
  lemma CloseKeeps(s: State, c: Cqe, q: seq<Cqe>, client: nat)
    requires Core(s, [c] + q) && Closes(c, client) && client >= RESERVED
    ensures Core(CloseConnection(s, client), q)
  {
    hide Core, Entries, QueueOk, Live, Pool, Buffers, Arrived, Output, Counters, Closes, IsData;
    ClosesIsNoData(c, client);
    DropCqe(s, c, q);
    CoreParts(s, [c] + q);
    DropLive(c, q, s.out.Keys);
    CoreParts(s, q);
    var s' := CloseConnection(s, client);
    CloseLive(c, q, s.out.Keys, client);
    assert s'.out.Keys == s.out.Keys - {client};
    if !s.ubdma {
      CloseOutput(s.ring.log, s.out, s.handled, s.nextId, client);
    }
    CoreFrom(s', q);
  }

  lemma ClosesIsNoData(c: Cqe, client: nat)
    requires Closes(c, client)
    ensures !IsData(c)
  {
  }

  lemma CloseLive(c: Cqe, q: seq<Cqe>, clients: set<nat>, client: nat)
    requires Live(q, clients) && Closes(c, client)
    requires forall i :: 0 <= i < |q| && IsData(q[i]) ==> !Closes(c, ClientOf(q[i]))
    ensures Live(q, clients - {client})
  {
    hide IsData, Closes, ClientOf;
  }

  lemma CloseOutput(sq: seq<Sqe>, out: map<nat, seq<byte>>, handled: seq<Handled>, nextId: nat, client: nat)
    requires Output(sq, out, handled, nextId)
    ensures Output(sq, out - {client}, handled, nextId)
  {
    hide Queued, Owed, Response.Stream;
    forall c: nat | c < ID_LIMIT ensures OutputOf(sq, out - {client}, handled, c) {
      assert OutputOf(sq, out, handled, c);
    }
  }

  // ----- replying

  lemma ReplyKeeps(s: State, c: Cqe, q: seq<Cqe>)
    requires Core(s, [c] + q) && IsData(c)
    requires ClientOf(c) in s.out && Addressable(s, ClientOf(c), c.flags, c.result)
    requires BufOf(c.flags) < BUFFERS_COUNT
    requires Fits(s, ClientOf(c), s.buffers[BufOf(c.flags)][..c.result])
    ensures Core(Reply1(s, c.flags, ClientOf(c), c.result), q)
  {
    hide Core, Tables, Entries, QueueOk, Live, Pool, Buffers, Arrived, Output, Capacity, Counters;
    hide IsData, ClientOf, BufOf, Answers, Requests, AfterReply, Response.Stream;
    var client, b := ClientOf(c), BufOf(c.flags);
    var packet := s.buffers[b][..c.result];
    var s' := Reply1(s, c.flags, client, c.result);
    CoreParts(s, [c] + q);
    DropQueue(c, q, s.fdOf, s.ubdma);
    DropLive(c, q, s.out.Keys);
    assert s'.out.Keys == s.out.Keys;
    ReplyTables(s.fds, s.nextId, s.out, s.fdOf, client, s'.out[client]);
    ReplyPool(c, q, s.free, s.released);
    ReplyBuffers(s, b, c.result);
    ReplyArrived(s, c, q);
    AnswersDated(packet, s.date);
    ReplyCapacity(s.out, s.unflushed, client, Answers(packet, s.date));
    ReplyCounters(s, Handled(Arrival(client, packet), s.date));
    if !s.ubdma {
      ReplyOutput(s.ring.log, s.out, s.handled, s.nextId, Handled(Arrival(client, packet), s.date));
    }
    CoreFrom(s', q);
  }

  lemma ReplyTables(fds: map<nat, int>, nextId: nat, out: map<nat, seq<byte>>, fdOf: map<nat, int>,
                    client: nat, pending: seq<byte>)
    requires Tables(fds, nextId, out, fdOf) && client in out
    ensures Tables(fds, nextId, out[client := pending], fdOf)
    ensures client < nextId <= ID_LIMIT
  {
  }

  lemma ReplyPool(c: Cqe, q: seq<Cqe>, free: set<nat>, released: seq<nat>)
    requires Pool(free, released, [c] + q) && IsData(c)
    ensures Pool(free, released + [BufOf(c.flags)], q)
    ensures BufOf(c.flags) !in BufsOf(q) && BufOf(c.flags) !in released
  {
    Consed(c, q, []);
    var b := BufOf(c.flags);
    hide BufsOf, IsData, BufOf;
    var held := released + ([b] + BufsOf(q));
    assert held == (released + [b]) + BufsOf(q);
    assert held[|released|] == b;
    forall i | 0 <= i < |BufsOf(q)| ensures BufsOf(q)[i] != b {
      assert held[|released| + 1 + i] == BufsOf(q)[i];
    }
    forall i | 0 <= i < |released| ensures released[i] != b {
      assert held[i] == released[i];
    }
  }

  lemma ReplyBuffers(s: State, b: nat, len: nat)
    requires Buffers(s.buffers, s.lastBuf) && b < BUFFERS_COUNT && len <= |s.buffers[b]|
    ensures Buffers(AfterReply(s.ubdma, s.buffers, b, len), Some(b))
  {
  }

  /** The packet answered is the one that arrived, and the buffer it leaves behind holds no waiting packet. */
  lemma ReplyArrived(s: State, c: Cqe, q: seq<Cqe>)
    requires Arrived(s.arrivals, s.handled, [c] + q, s.buffers) && IsData(c)
    requires Pool(s.free, s.released, [c] + q)
    requires Addressable(s, ClientOf(c), c.flags, c.result)
    ensures var b := BufOf(c.flags);
      Arrived(s.arrivals, s.handled + [Handled(Arrival(ClientOf(c), s.buffers[b][..c.result]), s.date)],
              q, AfterReply(s.ubdma, s.buffers, b, c.result))
  {
    var b := BufOf(c.flags);
    var h := Handled(Arrival(ClientOf(c), s.buffers[b][..c.result]), s.date);
    ReplyPool(c, q, s.free, s.released);
    Consed(c, q, s.buffers);
    assert ArrivalOf(c, s.buffers) == h.arrival;
    hide Pool, InFlight, BufsOf, IsData, ClientOf, BufOf;
    if AfterReply(s.ubdma, s.buffers, b, c.result) != s.buffers {
      InFlightFrame(q, s.buffers, b, Shift.RightAligned(s.buffers[b], c.result));
    }
    assert ArrivalsOf(s.handled + [h]) == ArrivalsOf(s.handled) + [h.arrival];
    var rest := InFlight(q, s.buffers);
    assert ArrivalsOf(s.handled) + ([h.arrival] + rest) == (ArrivalsOf(s.handled) + [h.arrival]) + rest;
  }

  lemma ReplyCapacity(out: map<nat, seq<byte>>, unflushed: map<nat, nat>, client: nat, answers: seq<Response.Answer>)
    requires Capacity(out, unflushed) && client in out && client in unflushed
    requires |out[client]| + |Response.Stream(answers)| <= DATA_LAKE_SIZE
    requires forall i :: 0 <= i < |answers| ==> |answers[i].date| == Response.DATE_LEN
    ensures Capacity(out[client := out[client] + Response.Stream(answers)], unflushed[client := unflushed[client] + |answers|])
  {
    hide Response.Stream;
    StreamBound(answers);
  }

  lemma ReplyCounters(s: State, h: Handled)
    requires Counters(s.ubdma, s.published, s.rpsAcc, s.served, s.handled)
    ensures var n := |Answers(h.arrival.packet, h.date)|;
      Counters(s.ubdma, s.published, s.rpsAcc + n, s.served + n, s.handled + [h])
  {
    hide Answers, Requests;
    AnswersDated(h.arrival.packet, h.date);
    TotalSnoc(s.handled, h);
  }

  /** The client answered gets its answers appended; every other output stays. */
  lemma ReplyOutput(sq: seq<Sqe>, out: map<nat, seq<byte>>, handled: seq<Handled>, nextId: nat, h: Handled)
    requires Output(sq, out, handled, nextId) && h.arrival.client in out && h.arrival.client < nextId <= ID_LIMIT
    ensures var c, answers := h.arrival.client, Answers(h.arrival.packet, h.date);
      Output(sq, out[c := out[c] + Response.Stream(answers)], handled + [h], nextId)
  {
    hide Queued, Owed, Answers, Response.Stream;
    var client, answers := h.arrival.client, Answers(h.arrival.packet, h.date);
    var out' := out[client := out[client] + Response.Stream(answers)];
    forall c: nat | c < ID_LIMIT ensures OutputOf(sq, out', handled + [h], c) {
      assert OutputOf(sq, out, handled, c);
      OwedSnoc(handled, h, c);
      StreamConcat(Owed(handled, c), answers);
      assert Owed(handled, c) + [] == Owed(handled, c);
    }
    forall c: nat | c >= nextId ensures Owed(handled + [h], c) == [] {
      OwedSnoc(handled, h, c);
    }
  }

  // ----- polling

  lemma {:induction false} UbdmaKeeps(s: State, client: nat, q: seq<Cqe>)
    requires Core(s, q) && s.ubdma
    requires s.lastBuf.Some? ==> s.lastBuf.value < |s.buffers|
    ensures Core(Ubdma(s, client), q)
  {
    hide Core, Tables, Entries, QueueOk, Live, Pool, Buffers, Arrived, Output, Capacity;
    hide Answers, Requests, Response.Stream;
    CoreParts(s, q);
    var s' := Ubdma(s, client);
    if s' != s {
      var answers := Answers(Trim.TrimLeft(s.buffers[s.lastBuf.value]), s.date);
      AnswersDated(Trim.TrimLeft(s.buffers[s.lastBuf.value]), s.date);
      assert s'.out.Keys == s.out.Keys;
      ReplyTables(s.fds, s.nextId, s.out, s.fdOf, client, s'.out[client]);
      UbdmaCapacity(s.out, s.unflushed, client, answers);
      CoreFrom(s', q);
    }
  }

  lemma UbdmaCapacity(out: map<nat, seq<byte>>, unflushed: map<nat, nat>, client: nat, answers: seq<Response.Answer>)
    requires Capacity(out, unflushed) && |answers| <= MAX_REQUESTS
    requires forall i :: 0 <= i < |answers| ==> |answers[i].date| == Response.DATE_LEN
    ensures Capacity(out[client := Response.Stream(answers)], unflushed[client := |answers|])
  {
    hide Response.Stream;
    StreamBound(answers);
  }

  // ----- flushing

  lemma FlushKeeps(s: State, q: seq<Cqe>)
    requires Core(s, q)
    ensures Core(WidebandSend(s), q)
    ensures forall c: nat :: c in WidebandSend(s).out ==> WidebandSend(s).out[c] == []
  {
    hide Core, Entries, QueueOk, Live, Pool, Buffers, Arrived, Output, Counters, SendsFrom;
    CoreParts(s, q);
    if s.out != map[] {
      var s' := WidebandSend(s);
      assert s'.out.Keys == s.out.Keys;
      SkipReserved(s.out, s.fds, 0, s.nextId);
      SendsAreOwned(s.out, s.fds, s.fdOf, RESERVED, s.nextId, s.ubdma);
      AppendEntries(s.ring.log, Sends(s), s.fdOf, s.ubdma);
      if !s.ubdma {
        FlushOutput(s.ring.log, s.out, s'.out, s.fds, s.handled, s.nextId);
      }
      CoreFrom(s', q);
    }
  }

  lemma {:induction false} SkipReserved(out: map<nat, seq<byte>>, fds: map<nat, int>, id: nat, end: nat)
    requires id <= RESERVED <= end
    requires forall c: nat :: c < RESERVED ==> c !in out
    ensures SendsFrom(out, fds, id, end) == SendsFrom(out, fds, RESERVED, end)
    decreases RESERVED - id
  {
    if id < RESERVED {
      SkipReserved(out, fds, id + 1, end);
      assert [] + SendsFrom(out, fds, id + 1, end) == SendsFrom(out, fds, id + 1, end);
    }
  }

  /** What was pending is now queued, for the same client and nobody else. */
  lemma FlushOutput(sq: seq<Sqe>, out: map<nat, seq<byte>>, out': map<nat, seq<byte>>, fds: map<nat, int>,
                    handled: seq<Handled>, nextId: nat)
    requires Output(sq, out, handled, nextId) && RESERVED <= nextId <= ID_LIMIT
    requires forall c: nat :: c in out ==> RESERVED <= c < nextId && c in fds
    requires out'.Keys == out.Keys && forall c: nat :: c in out ==> out'[c] == []
    ensures Output(sq + SendsFrom(out, fds, RESERVED, nextId), out', handled, nextId)
  {
    hide Queued, Owed, Response.Stream, SendsFrom;
    var more := SendsFrom(out, fds, RESERVED, nextId);
    forall c: nat | c < ID_LIMIT ensures OutputOf(sq + more, out', handled, c) {
      assert OutputOf(sq, out, handled, c);
      QueuedConcat(sq, more, c);
      SendsCarry(out, fds, RESERVED, nextId, c);
      assert Queued(sq, c) + [] == Queued(sq, c);
      if c in out {
        assert (Queued(sq, c) + out[c]) + [] == Queued(sq, c) + out[c];
      }
    }
  }
}
