/**
 The server itself: the tables, buffers and rings as fields updated in place.  Every method is proved
 to do what the function of the same name in Machine says; the loop body is proved to be a run of events.
 */
module ServerLoop {
  import opened Bytes
  import opened Lake
  import opened ServerInternals
  import M = Machine
  import opened Invariants
  import opened Preserved
  import opened Runs
  import Histories
  import Guarantees
  import Response
  import Http
  import Shift
  import Trim

  // ----- the specification functions, as single updates of the state

  /** The answers to the first `n` requests of a buffer, as bytes. */
  ghost function Answered(buf: seq<byte>, requests: seq<Http.Entry>, n: nat, date: seq<byte>): seq<byte>
    requires n <= |requests|
  {
    Response.Stream(M.AnswersTo(Http.Views(buf, requests[..n]), date))
  }

  lemma AnsweredNone(buf: seq<byte>, requests: seq<Http.Entry>, date: seq<byte>)
    ensures Answered(buf, requests, 0, date) == []
  {
  }

  lemma AnsweredStep(buf: seq<byte>, requests: seq<Http.Entry>, n: nat, date: seq<byte>)
    requires n < |requests|
    ensures var r := Http.View(buf, requests[n]);
      Answered(buf, requests, n + 1, date) == Answered(buf, requests, n, date) + Response.Reply(Response.RouteOf(r.verb, r.path), date)
  {
    hide Http.View, Response.Reply, Response.RouteOf;
    var before := M.AnswersTo(Http.Views(buf, requests[..n]), date);
    var last := M.AnswerTo(Http.View(buf, requests[n]), date);
    assert M.AnswersTo(Http.Views(buf, requests[..n + 1]), date) == before + [last];
    Histories.StreamConcat(before, [last]);
    assert [last][1..] == [];
    assert Response.Stream([last]) == Response.Reply(last.route, last.date) + [];
  }

  lemma AnswersAre(packet: seq<byte>, date: seq<byte>)
    ensures M.Answers(packet, date) == M.AnswersTo(Http.Views(packet, Http.Parse(packet, M.MAX_REQUESTS)), date)
    ensures |M.Answers(packet, date)| == |Http.Parse(packet, M.MAX_REQUESTS)|
  {
    hide Http.Parse;
  }

  /** A server as built, before set-up. */
  ghost function Blank(ubdma: bool, cap: nat): M.State {
    M.State(ubdma, map[], 0, map[], [], M.BlankBuffers(), None, true, 0, 0, 0, Zeros(Response.DATE_LEN), M.Head,
            M.Ring(cap, [], 0, 0, 0), [], [], {}, {}, map[], [], [], [], 0, 0, map[])
  }

  lemma SendsStep(out: map<nat, seq<byte>>, fds: map<nat, int>, id: nat, end: nat, sent: seq<M.Sqe>)
    requires id < end
    ensures sent + M.SendsFrom(out, fds, id, end) ==
      (if id in out && out[id] != [] && id in fds
       then sent + [M.Sqe(M.Send(fds[id], out[id]), Tag(id, SEND_EVENT))] else sent)
      + M.SendsFrom(out, fds, id + 1, end)
  {
    hide Tag;
  }

  lemma SendsEnd(out: map<nat, seq<byte>>, fds: map<nat, int>, end: nat)
    ensures M.SendsFrom(out, fds, end, end) == []
  {
  }

  lemma EmptiedAre(out: map<nat, seq<byte>>, fds: map<nat, int>, out': map<nat, seq<byte>>)
    requires out'.Keys == out.Keys && forall id: nat :: id in out ==> out'[id] == if id in fds then [] else out[id]
    ensures out' == M.Emptied(out, fds)
  {
    assert forall id :: id in out' <==> id in out;
  }

  datatype World = World(
    phase: M.Phase, free: set<nat>, openFds: set<int>, fdOf: map<nat, int>, closed: seq<int>,
    arrivals: seq<M.Arrival>, handled: seq<M.Handled>, published: nat, served: nat, unflushed: map<nat, nat>)

  // ----- a turn of the loop as events

  /** What the kernel does within a turn: after the top, after the wait, and after each drain. */
  datatype Meanwhile = Meanwhile(top: seq<Event>, wait: seq<Event>, drains: seq<seq<Event>>) {
    predicate Ok() { KernelSteps(top) && KernelSteps(wait) && forall i :: 0 <= i < |drains| ==> KernelSteps(drains[i]) }
  }

  ghost function Drains(k: seq<seq<Event>>): seq<Event> {
    if k == [] then [LoopEnd] + [] else [LoopDrain] + (k[0] + Drains(k[1..]))
  }

  ghost function AfterTop(m: Meanwhile): seq<Event> { [LoopWait] + (m.wait + Drains(m.drains)) }

  /** The events of one turn of the loop, the kernel's among them. */
  ghost function Turn(now: int, date: seq<byte>, m: Meanwhile): seq<Event> {
    [LoopTop(now, date)] + (m.top + AfterTop(m))
  }

  /** `s` still has the events `es` to go to the end state `goal`. */
  ghost predicate Leads(s: M.State, es: seq<Event>, goal: M.State) {
    Inv(s) && Guarantees.Valid(s, es) && Guarantees.Run(s, es) == goal
  }

  lemma RunCons(s: M.State, e: Event, es: seq<Event>, goal: M.State)
    requires Leads(s, [e] + es, goal)
    ensures Inv(s) && Enabled(s, e) && Leads(Step(s, e), es, goal)
  {
    hide Inv, Step, Enabled;
    assert ([e] + es)[1..] == es;
    StepKeeps(s, e);
  }

  lemma RunNothing(s: M.State, goal: M.State)
    requires Leads(s, [], goal)
    ensures Inv(s) && s == goal
  {
    hide Inv;
  }

  lemma TurnTop(s: M.State, now: int, date: seq<byte>, rest: seq<Event>, goal: M.State)
    requires Leads(s, [LoopTop(now, date)] + rest, goal)
    ensures |M.Sends(s)| <= s.ring.Room() && forall c: nat :: c in s.out ==> c < s.nextId
    ensures Leads(M.Top(s, now, date), rest, goal)
  {
    hide Core, Leads, M.Top, M.Sends;
    RunCons(s, LoopTop(now, date), rest, goal);
    CoreParts(s, Pending(s));
  }

  lemma TurnWait(s: M.State, rest: seq<Event>, goal: M.State)
    requires Leads(s, [LoopWait] + rest, goal)
    ensures Leads(M.Wait(s), rest, goal)
  {
    hide Inv, Leads, M.Wait;
    RunCons(s, LoopWait, rest, goal);
  }

  /** The events say whether a completion is left; if so it can be drained. */
  lemma TurnDrain(s: M.State, k: seq<seq<Event>>, goal: M.State)
    requires Leads(s, Drains(k), goal)
    ensures Inv(s) && (k == [] <==> s.visible == [])
    ensures k != [] ==> CanDrain(s) && M.Safe(M.Pop(s), s.visible[0]) && Leads(M.Drain(s), k[0] + Drains(k[1..]), goal)
  {
    hide Inv, Leads, CanProcess, M.Drain, M.Safe;
    if k == [] {
      RunCons(s, LoopEnd, [], goal);
    } else {
      RunCons(s, LoopDrain, k[0] + Drains(k[1..]), goal);
      DrainKeeps(s);
    }
  }

  lemma TurnEnd(s: M.State, goal: M.State)
    requires Leads(s, Drains([]), goal)
    ensures s.rps == 0 ==> |s.released| <= s.ring.Room()
    ensures Inv(M.End(s)) && M.End(s) == goal
  {
    hide Inv, Leads, M.End;
    RunCons(s, LoopEnd, [], goal);
    RunNothing(M.End(s), goal);
  }

  // ----- what the invariants give the handlers

  lemma ReleaseReady(s: M.State, c: M.Cqe)
    requires CanProcess(s, c) && M.DispatchOf(s, c) == M.Response(M.Release)
    ensures |s.released| <= s.ring.Room()
  {
    hide M.DispatchOf;
  }

  lemma PollReady(s: M.State, c: M.Cqe, q: seq<M.Cqe>)
    requires Core(s, [c] + q)
    ensures |s.date| == Response.DATE_LEN && (s.lastBuf.Some? ==> s.lastBuf.value < |s.buffers|)
  {
    hide Tables, Entries, Cursors, QueueOk, Live, Pool, Arrived, Output, Capacity, Counters;
  }

  /** A reply finds its client and buffer, its bytes fit, and a full hoard finds room. */
  lemma ReplyReady(s: M.State, c: M.Cqe, q: seq<M.Cqe>, client: nat)
    requires Core(s, [c] + q) && |s.released| < M.RELEASE_AT && CanProcess(s, c)
    requires M.DispatchOf(s, c) == M.Response(M.Reply(client))
    ensures M.Addressable(s, client, c.flags, c.result) && |s.buffers[M.BufOf(c.flags)]| == BUFFER_SIZE
    ensures |s.date| == Response.DATE_LEN
    ensures |s.out[client]| + |Response.Stream(M.Answers(s.buffers[M.BufOf(c.flags)][..c.result], s.date))| <= M.DATA_LAKE_SIZE
    ensures |s.released| + 1 == M.RELEASE_AT ==> |s.released| + 1 <= s.ring.Room()
  {
    hide Core, M.DispatchOf, IsData, M.Requests, M.Answers, M.BufOf, Response.Stream, CqeOk, Tables, Entries, QueueOk, Live, Pool, Arrived, Output, Counters;
    CoreParts(s, [c] + q);
    DropQueue(c, q, s.fdOf, s.ubdma);
    ReplyMeansData(s, c);
    ReplyAddressable(s, c, q);
    AddressableMeans(s, client, c.flags, c.result);
    var packet := s.buffers[M.BufOf(c.flags)][..c.result];
    Histories.AnswersDated(packet, s.date);
    Histories.StreamBound(M.Answers(packet, s.date));
  }

  lemma MetricsSends(s: M.State, clock: int, date: seq<byte>)
    ensures M.Sends(M.Metrics(s, clock, date)) == M.Sends(s)
  {
    hide M.SendsFrom;
  }

  /** The history after a reply. */
  ghost function Accounted(w: World, client: nat, count: nat, packet: seq<byte>, date: seq<byte>): World
    requires client in w.unflushed
  {
    w.(served := w.served + count, unflushed := w.unflushed[client := w.unflushed[client] + count],
       handled := w.handled + [M.Handled(M.Arrival(client, packet), date)])
  }

  class Server {
    const ubKernelDma: bool
    // connection table and output buffers: push indices are never reused
    var clientFds: map<nat, int>
    var nextId: nat
    var clientOutBuffers: map<nat, seq<byte>>
    // receive buffers
    var releasedBuffers: seq<nat>
    var buffers: seq<seq<byte>>
    var currentKernelBuf: Option<nat>
    // loop state
    var syncNow: bool
    var rps: nat
    var rpsAcc: nat
    var clock: int
    var date: seq<byte>
    // reply scratch
    const hotCache: array<byte>
    const jsonBuf: SmallLake
    const dataLake: SmallLake
    // rings
    var ring: M.Ring
    var visible: seq<M.Cqe>
    var posted: seq<M.Cqe>
    /** The kernel's side, the loop position and the history. */
    ghost var world: World

    ghost function State(): M.State
      reads this
    {
      M.State(ubKernelDma, clientFds, nextId, clientOutBuffers, releasedBuffers, buffers, currentKernelBuf,
              syncNow, rps, rpsAcc, clock, date, world.phase, ring, visible, posted,
              world.free, world.openFds, world.fdOf, world.closed, world.arrivals, world.handled,
              world.published, world.served, world.unflushed)
    }

    /** The scratch buffers are separate objects of the source's sizes. */
    predicate Scratch() {
      hotCache.Length == 2 * BUFFER_SIZE && jsonBuf != dataLake && jsonBuf.capacity == 100 && dataLake.capacity == 512
    }

    constructor (ubKernelDma: bool, cap: nat)
      ensures Scratch() && State() == Blank(ubKernelDma, cap)
      ensures fresh(hotCache) && fresh(jsonBuf) && fresh(dataLake)
    {
      this.ubKernelDma := ubKernelDma;
      clientFds, nextId, clientOutBuffers := map[], 0, map[];
      releasedBuffers, buffers, currentKernelBuf := [], M.BlankBuffers(), None;
      syncNow, rps, rpsAcc, clock, date := true, 0, 0, 0, Zeros(Response.DATE_LEN);
      hotCache := new byte[2 * BUFFER_SIZE](_ => 0);
      jsonBuf := new SmallLake(100);
      dataLake := new SmallLake(512);
      ring := M.Ring(cap, [], 0, 0, 0);
      visible, posted := [], [];
      world := World(M.Head, {}, {}, map[], [], [], [], 0, 0, map[]);
      new;
      hide M.BlankBuffers, Zeros;
    }

    /** What the worker does before its loop: offer the buffers, push the accepts, reserve the first slots. */
    method SetUp()
      requires State() == Blank(ubKernelDma, ring.cap) && ring.cap >= M.BUFFERS_COUNT + 16
      modifies this
      ensures State() == M.Initial(ubKernelDma, old(ring.cap))
    {
      hide M.SetupEntries, M.ReserveWrites, M.BlankBuffers, M.Below, Zeros;
      RegisterBuffers();
      StartAccepts();
      ReserveWritesBuffer(M.RESERVED);
    }

    /** Offers every buffer to the kernel and waits until it has them. */
    method RegisterBuffers()
      requires ring.log == [] && ring.head == 0 && ring.cap >= M.BUFFERS_COUNT
      requires ring.synced == ring.consumed == 0
      modifies this`ring, this`world
      ensures ring == M.Ring(old(ring.cap), M.SetupEntries()[..M.BUFFERS_COUNT], M.BUFFERS_COUNT, M.BUFFERS_COUNT, 0)
      ensures world == old(world).(free := M.Below(M.BUFFERS_COUNT))
    {
      hide M.SetupEntries;
      var rqs := seq(M.BUFFERS_COUNT, i requires 0 <= i < M.BUFFERS_COUNT => M.Provide(i));
      assert rqs == M.SetupEntries()[..M.BUFFERS_COUNT];
      assert [] + rqs == rqs;
      ring := ring.PushAll(rqs);
      ring := ring.Sync();
      ring := ring.Submit();
      world := world.(free := M.Below(M.BUFFERS_COUNT));
    }

    /** Sixteen multi-accepts, pushed and left for the first sync of the loop. */
    method StartAccepts()
      requires ring.log == M.SetupEntries()[..M.BUFFERS_COUNT] && ring.Room() >= 16 && ring.synced == ring.consumed
      modifies this`ring
      ensures ring == old(ring).(log := M.SetupEntries())
    {
      hide M.SetupEntries;
      ghost var r0 := ring;
      var i := 0;
      while i < 16
        invariant 0 <= i <= 16
        invariant ring == r0.(log := M.SetupEntries()[..M.BUFFERS_COUNT + i])
      {
        assert M.SetupEntries()[..M.BUFFERS_COUNT + i + 1]
          == M.SetupEntries()[..M.BUFFERS_COUNT + i] + [M.Sqe(M.AcceptMulti, CODE_ACCEPT)];
        ring := ring.Push(M.Sqe(M.AcceptMulti, CODE_ACCEPT));
        i := i + 1;
      }
      assert M.SetupEntries()[..M.BUFFERS_COUNT + 16] == M.SetupEntries();
      ring := ring.Submit();
    }

    /** Fills the first table slots with dummy descriptors, so that no real client is among them. */
    method ReserveWritesBuffer(reserve: nat)
      requires clientFds == map[] && nextId == 0
      modifies this`clientFds, this`nextId
      ensures clientFds == M.ReserveWrites(reserve) && nextId == reserve
    {
      var i := 0;
      while i < reserve
        invariant i <= reserve && nextId == i && clientFds == M.ReserveWrites(i)
      {
        assert M.ReserveWrites(i + 1) == M.ReserveWrites(i)[i := M.RESERVED_FD];
        clientFds := clientFds[nextId := M.RESERVED_FD];
        nextId := nextId + 1;
        i := i + 1;
      }
    }

    /** Returns the hoarded buffers; the push is retried until the ring takes it, so there must be room. */
    method ReleaseBuffers()
      requires releasedBuffers == [] || |releasedBuffers| <= ring.Room()
      modifies this`ring, this`world, this`releasedBuffers
      ensures State() == M.ReleaseBuffers(old(State()))
    {
      if |releasedBuffers| == 0 {
        return;
      }
      ring := ring.Submit();
      var rqs: seq<M.Sqe> := [];
      var i := 0;
      while i < |releasedBuffers|
        modifies {}
        invariant i <= |releasedBuffers|
        invariant rqs == M.Provides(releasedBuffers[..i])
      {
        rqs := rqs + [M.Provide(releasedBuffers[i])];
        i := i + 1;
      }
      assert releasedBuffers[..i] == releasedBuffers;
      ring := ring.PushAll(rqs);
      ring := ring.Sync();
      ring := ring.Submit();
      world := world.(free := world.free + (set b | b in releasedBuffers));
      releasedBuffers := [];
    }

    method ProcessEntryAccept(result: int)
      modifies this`clientFds, this`nextId, this`clientOutBuffers, this`world, this`ring, this`syncNow
      ensures State() == M.ProcessEntryAccept(old(State()), result)
    {
      hide Tag, M.Armed;
      var clientFd := result;
      if clientFd <= 0 {
        return;
      }
      var id := InsertClient(clientFd);
      ArmClient(id, clientFd);
      syncNow := true;
    }

    /** Stores the descriptor under the next index and gives the client an empty output buffer. */
    method InsertClient(clientFd: int) returns (id: nat)
      modifies this`clientFds, this`nextId, this`clientOutBuffers, this`world
      ensures id == old(nextId) && nextId == id + 1
      ensures clientFds == old(clientFds)[id := clientFd] && clientOutBuffers == old(clientOutBuffers)[id := []]
      ensures world == old(world).(fdOf := old(world).fdOf[id := clientFd], unflushed := old(world).unflushed[id := 0])
    {
      id := nextId;
      clientFds := clientFds[id := clientFd];
      nextId := nextId + 1;
      clientOutBuffers := clientOutBuffers[id := []];
      world := world.(fdOf := world.fdOf[id := clientFd], unflushed := world.unflushed[id := 0]);
    }

    /** In UBDMA mode a poll, synced at once; then the receive. */
    method ArmClient(id: nat, clientFd: int)
      modifies this`ring
      ensures ring == M.Armed(old(ring), ubKernelDma, id, clientFd)
    {
      hide Tag;
      if ubKernelDma {
        ring := ring.Push(M.Sqe(M.PollAdd(clientFd), Tag(id, POLL_EVENT)));
        ring := ring.Sync();
      }
      ring := ring.Push(M.Sqe(M.RecvMulti(clientFd), Tag(id, INIT_REQUEST)));
    }

    /** Turns every client's pending bytes into a send entry, in table order, and empties its buffer. */
    method CollectSends() returns (entries: seq<M.Sqe>)
      requires forall c: nat :: c in clientOutBuffers ==> c < nextId
      modifies this`clientOutBuffers
      ensures entries == M.SendsFrom(old(clientOutBuffers), clientFds, 0, nextId)
      ensures clientOutBuffers == M.Emptied(old(clientOutBuffers), clientFds)
    {
      hide Tag, M.SendsFrom, M.Emptied;
      ghost var out := clientOutBuffers;
      SendsEnd(out, clientFds, nextId);
      entries := [];
      var id := 0;
      assert [] + M.SendsFrom(out, clientFds, 0, nextId) == M.SendsFrom(out, clientFds, 0, nextId);
      while id < nextId
        invariant id <= nextId
        invariant entries + M.SendsFrom(out, clientFds, id, nextId) == M.SendsFrom(out, clientFds, 0, nextId)
        invariant clientOutBuffers.Keys == out.Keys
        invariant forall c: nat :: c in out ==>
          clientOutBuffers[c] == if c < id && c in clientFds then [] else out[c]
      {
        SendsStep(out, clientFds, id, nextId, entries);
        if id in clientOutBuffers && clientOutBuffers[id] != [] {
          if id in clientFds {
            entries := entries + [M.Sqe(M.Send(clientFds[id], clientOutBuffers[id]), Tag(id, SEND_EVENT))];
            clientOutBuffers := clientOutBuffers[id := []];
          }
        }
        id := id + 1;
      }
      EmptiedAre(out, clientFds, clientOutBuffers);
    }

    method PushSends(entries: seq<M.Sqe>)
      requires |entries| <= ring.Room()
      modifies this`ring
      ensures ring == old(ring).PushAll(entries)
    {
      if |entries| > 0 {
        ring := ring.PushAll(entries);
      } else {
        assert ring.log + entries == ring.log;
      }
    }

    /** Flushes: one send entry a client with pending bytes; the push of them all must find room. */
    method WidebandSend()
      requires |M.Sends(State())| <= ring.Room()
      requires forall c: nat :: c in clientOutBuffers ==> c < nextId
      modifies this`clientOutBuffers, this`ring, this`world, this`syncNow
      ensures State() == M.WidebandSend(old(State()))
    {
      hide M.SendsFrom, M.Emptied, M.Settled;
      if clientOutBuffers == map[] {
        return;
      }
      QueueSends();
      syncNow := true;
    }

    /** Collects the send entries and pushes them. */
    method QueueSends()
      requires |M.SendsFrom(clientOutBuffers, clientFds, 0, nextId)| <= ring.Room()
      requires forall c: nat :: c in clientOutBuffers ==> c < nextId
      modifies this`clientOutBuffers, this`ring, this`world
      ensures ring == old(ring).PushAll(M.SendsFrom(old(clientOutBuffers), clientFds, 0, nextId))
      ensures clientOutBuffers == M.Emptied(old(clientOutBuffers), clientFds)
      ensures world == old(world).(unflushed := M.Settled(old(world).unflushed, clientFds))
    {
      hide M.SendsFrom, M.Emptied, M.Settled;
      var entries := CollectSends();
      PushSends(entries);
      world := world.(unflushed := M.Settled(world.unflushed, clientFds));
    }

    /** The filled part of the parser's fixed array. */
    static method ParseRequests(buffer: seq<byte>) returns (found: seq<Http.Entry>)
      ensures found == Http.Parse(buffer, M.MAX_REQUESTS)
    {
      hide Http.Parse;
      var requests, count := Http.ParseHttpMethodsPaths(buffer, M.MAX_REQUESTS);
      found := requests[..count];
    }

    /** Answers the requests of a buffer one after another into the hot cache. */
    method AnswerAll(buf: seq<byte>, requests: seq<Http.Entry>) returns (totalLen: nat)
      requires Scratch() && |date| == Response.DATE_LEN && |requests| <= M.MAX_REQUESTS
      modifies this`rpsAcc, hotCache, jsonBuf, dataLake
      ensures rpsAcc == old(rpsAcc) + |requests|
      ensures totalLen <= hotCache.Length
      ensures hotCache[..totalLen] == Response.Stream(M.AnswersTo(Http.Views(buf, requests), date))
    {
      hide M.AnswersTo, Http.Views, Http.View, Response.Stream, Response.Reply, Response.RouteOf, Ascii;
      hide Response.PlaintextBytes, Response.JsonBytes, Response.NotFoundBytes;
      totalLen := 0;
      var index := 0;
      AnsweredNone(buf, requests, date);
      while index < |requests|
        invariant index <= |requests| && totalLen <= Response.MAX_REPLY * index
        invariant rpsAcc == old(rpsAcc) + index
        invariant hotCache[..totalLen] == Answered(buf, requests, index, date)
      {
        rpsAcc := rpsAcc + 1;
        var request := Http.View(buf, requests[index]);
        AnsweredStep(buf, requests, index, date);
        Response.ReplyLength(Response.RouteOf(request.verb, request.path), date);
        var len := Response.Handler(request.verb, request.path, date, hotCache, totalLen, jsonBuf, dataLake);
        assert hotCache[..totalLen + len] == hotCache[..totalLen] + hotCache[totalLen..totalLen + len];
        totalLen := totalLen + len;
        index := index + 1;
      }
      assert requests[..index] == requests;
    }

    /** A readiness event: answer what the last seen buffer seems to hold, if it is worth it. */
    method Ubdma(client: nat)
      requires Scratch() && |date| == Response.DATE_LEN
      requires currentKernelBuf.Some? ==> currentKernelBuf.value < |buffers|
      modifies this`rpsAcc, this`clientOutBuffers, this`syncNow, this`world, hotCache, jsonBuf, dataLake
      ensures State() == M.Ubdma(old(State()), client)
    {
      hide M.Answers, Http.Parse, Trim.TrimLeft, Response.Stream;
      if currentKernelBuf.None? {
        return;
      }
      var buffer := Trim.LTrim256(buffers[currentKernelBuf.value]);
      var found := ParseRequests(buffer);
      var count := |found|;
      AnswersAre(buffer, date);
      var worth := (if count > 5 then count - 5 else 0) * M.DATA_LAKE_SIZE;
      if worth == 0 {
        return;
      }
      if client !in clientOutBuffers {
        return;
      }
      if clientOutBuffers[client] != [] {
        return;
      }
      var totalLen := AnswerAll(buffer, found);
      QueuePolled(client, hotCache[..totalLen], count);
    }

    /** Fills the client's empty output buffer. */
    method QueuePolled(client: nat, replies: seq<byte>, count: nat)
      requires client in clientOutBuffers && clientOutBuffers[client] == [] && |replies| <= M.DATA_LAKE_SIZE
      modifies this`clientOutBuffers, this`syncNow, this`world
      ensures clientOutBuffers == old(clientOutBuffers)[client := replies] && syncNow
      ensures world == old(world).(served := old(world).served + count, unflushed := old(world).unflushed[client := count])
    {
      clientOutBuffers := clientOutBuffers[client := clientOutBuffers[client] + replies];
      assert [] + replies == replies;
      world := world.(served := world.served + count, unflushed := world.unflushed[client := count]);
      syncNow := true;
    }

    /** Answers a received packet, keeps its buffer for return, and returns the hoard when it is full. */
    method RequestReply(flags: nat, client: nat, result: int)
      requires Scratch() && |date| == Response.DATE_LEN
      requires result <= BUFFER_SIZE ==>
        && M.Addressable(State(), client, flags, result)
        && |buffers[M.BufOf(flags)]| == BUFFER_SIZE
        && |clientOutBuffers[client]| + |Response.Stream(M.Answers(buffers[M.BufOf(flags)][..result], date))| <= M.DATA_LAKE_SIZE
      requires |releasedBuffers| + 1 == M.RELEASE_AT ==> |releasedBuffers| + 1 <= ring.Room()
      modifies this`currentKernelBuf, this`rpsAcc, this`clientOutBuffers, this`syncNow, this`releasedBuffers,
               this`buffers, this`ring, this`world, hotCache, jsonBuf, dataLake
      ensures State() == M.RequestReply(old(State()), flags, client, result)
    {
      if result > BUFFER_SIZE {
        return;
      }
      ReplyToPacket(M.BufOf(flags), client, result, flags);
      if |releasedBuffers| == M.RELEASE_AT {
        ReleaseBuffers();
      }
    }

    method ReplyToPacket(bufId: nat, client: nat, result: nat, ghost flags: nat)
      requires Scratch() && |date| == Response.DATE_LEN && bufId == M.BufOf(flags)
      requires M.Addressable(State(), client, flags, result) && |buffers[bufId]| == BUFFER_SIZE
      requires |clientOutBuffers[client]| + |Response.Stream(M.Answers(buffers[bufId][..result], date))| <= M.DATA_LAKE_SIZE
      modifies this`currentKernelBuf, this`rpsAcc, this`clientOutBuffers, this`syncNow, this`releasedBuffers,
               this`buffers, this`world, hotCache, jsonBuf, dataLake
      ensures State() == M.Reply1(old(State()), flags, client, result)
    {
      hide M.BufOf, M.AfterReply, M.Answers, Response.Stream;
      var replies, count := BuildReplies(bufId, result);
      QueueReplies(bufId, client, result, replies, count);
    }

    /** Appends the replies to the client's output, hoards the buffer, and shifts it for the next poll. */
    method QueueReplies(bufId: nat, client: nat, len: nat, replies: seq<byte>, count: nat)
      requires bufId < |buffers| && |buffers[bufId]| == BUFFER_SIZE && len <= BUFFER_SIZE
      requires client in clientOutBuffers && client in world.unflushed
      requires |clientOutBuffers[client]| + |replies| <= M.DATA_LAKE_SIZE
      modifies this`currentKernelBuf, this`clientOutBuffers, this`syncNow, this`releasedBuffers, this`buffers, this`world
      ensures currentKernelBuf == Some(bufId) && syncNow
      ensures clientOutBuffers == old(clientOutBuffers)[client := old(clientOutBuffers)[client] + replies]
      ensures releasedBuffers == old(releasedBuffers) + [bufId]
      ensures buffers == M.AfterReply(ubKernelDma, old(buffers), bufId, len)
      ensures world == Accounted(old(world), client, count, old(buffers)[bufId][..len], date)
    {
      hide M.AfterReply;
      currentKernelBuf := Some(bufId);
      clientOutBuffers := clientOutBuffers[client := clientOutBuffers[client] + replies];
      syncNow := true;
      releasedBuffers := releasedBuffers + [bufId];
      world := Accounted(world, client, count, buffers[bufId][..len], date);
      ShiftAfterReply(bufId, len);
    }

    /** Parses a packet in place and answers it in the hot cache. */
    method BuildReplies(bufId: nat, len: nat) returns (replies: seq<byte>, count: nat)
      requires Scratch() && |date| == Response.DATE_LEN && bufId < |buffers| && len <= |buffers[bufId]|
      modifies this`rpsAcc, hotCache, jsonBuf, dataLake
      ensures var answers := M.Answers(buffers[bufId][..len], date);
        replies == Response.Stream(answers) && count == |answers| && rpsAcc == old(rpsAcc) + count
    {
      hide M.Answers, Http.Parse, Response.Stream;
      var buffer := buffers[bufId][..len];
      var requests := ParseRequests(buffer);
      AnswersAre(buffer, date);
      var totalLen := AnswerAll(buffer, requests);
      replies, count := hotCache[..totalLen], |requests|;
    }

    /** In UBDMA mode a buffer whose last byte is zero is right-aligned for the next poll. */
    method ShiftAfterReply(bufId: nat, len: nat)
      requires bufId < |buffers| && |buffers[bufId]| == BUFFER_SIZE && len <= BUFFER_SIZE
      modifies this`buffers
      ensures buffers == M.AfterReply(ubKernelDma, old(buffers), bufId, len)
    {
      if ubKernelDma {
        if buffers[bufId][BUFFER_SIZE - 1] == 0 {
          buffers := buffers[bufId := Shift.RightAligned(buffers[bufId], len)];
        }
      }
    }

    /** The forced close. */
    method CloseConnection(client: nat)
      modifies this`clientFds, this`clientOutBuffers, this`world
      ensures State() == M.CloseConnection(old(State()), client)
    {
      var cfd := 0xFF;
      if client in clientFds {
        cfd := clientFds[client];
        clientFds := clientFds - {client};
      } else {
        assert clientFds - {client} == clientFds;
      }
      clientOutBuffers := clientOutBuffers - {client};
      if cfd == 0 {
        assert world.closed + [] == world.closed;
        return;
      }
      world := world.(closed := world.closed + [cfd], openFds := world.openFds - {cfd});
      assert (set fd | fd in [cfd]) == {cfd};
    }

    /** The handler of completions that carry a client's user data, branch by branch. */
    method ProcessEntryResponse(cqe: M.Cqe, ghost q: seq<M.Cqe>)
      requires Scratch() && cqe.userData >= REQ_RESP_OFFSET
      requires Core(State(), [cqe] + q) && |releasedBuffers| < M.RELEASE_AT && CanProcess(State(), cqe)
      requires M.DispatchOf(State(), cqe) == M.Response(M.Decide(State(), Unpack(cqe.userData), cqe.result))
      modifies this, hotCache, jsonBuf, dataLake
      ensures M.Safe(old(State()), cqe) && State() == M.ProcessEntry(old(State()), cqe)
    {
      ghost var s := State();
      ProcessKeeps(s, cqe, q);
      hide Core, M.DispatchOf, CanProcess, M.ReleaseBuffers, M.CloseConnection, M.Ubdma, M.RequestReply, Unpack;
      var user := Unpack(cqe.userData);
      var result := cqe.result;
      if result == -M.EAGAIN || result == -M.EBADF {
        return;
      }
      if result == -M.ENOBUFS {
        ReleaseReady(s, cqe);
        ReleaseBuffers();
        return;
      }
      if result == -M.EPIPE {
        return;
      }
      if (result == 0 && user.uniqId != SEND_EVENT) || result == -M.ECONNRESET {
        CloseConnection(user.clientId);
        return;
      }
      if result < 0 {
        return;
      }
      if user.uniqId == POLL_EVENT && ubKernelDma {
        PollReady(s, cqe, q);
        Ubdma(user.clientId);
        return;
      }
      if user.uniqId == SEND_EVENT {
        return;
      }
      if result > 0 {
        ReplyReady(s, cqe, q, user.clientId);
        RequestReply(cqe.flags, user.clientId, result);
      }
    }

    /** The dispatch of a completion; its unchecked accesses are safe in every reachable state. */
    method ProcessEntry(cqe: M.Cqe, ghost q: seq<M.Cqe>)
      requires Scratch()
      requires Core(State(), [cqe] + q) && |releasedBuffers| < M.RELEASE_AT && CanProcess(State(), cqe)
      modifies this, hotCache, jsonBuf, dataLake
      ensures M.Safe(old(State()), cqe) && State() == M.ProcessEntry(old(State()), cqe)
    {
      ghost var s := State();
      ProcessKeeps(s, cqe, q);
      hide Core, CanProcess, M.ReleaseBuffers, M.CloseConnection, M.Ubdma, M.RequestReply, M.ProcessEntryAccept, M.Decide, Unpack, M.Safe;
      if cqe.userData == BUFFER_REGISTER_CODE && cqe.result == 0 && cqe.flags == 0 {
        return;
      }
      if cqe.userData == CODE_ACCEPT {
        ProcessEntryAccept(cqe.result);
      } else if cqe.userData >= REQ_RESP_OFFSET {
        ProcessEntryResponse(cqe, q);
      }
    }

    // ----- the loop

    /** Once a second: publish the rate and renew the date. */
    method UpdateMetrics(now: int, httpDate: seq<byte>)
      modifies this`rps, this`rpsAcc, this`clock, this`date, this`world
      ensures State() == M.Metrics(old(State()), now, httpDate)
    {
      if now != clock {
        world := world.(published := world.published + rpsAcc);
        rps := rpsAcc;
        rpsAcc := 0;
        clock := now;
        date := httpDate;
      }
    }

    method LoopTop(now: int, httpDate: seq<byte>)
      requires |M.Sends(State())| <= ring.Room()
      requires forall c: nat :: c in clientOutBuffers ==> c < nextId
      modifies this
      ensures State() == M.Top(old(State()), now, httpDate)
    {
      hide M.Metrics, M.WidebandSend, M.Sends;
      ghost var s := State();
      MetricsSends(s, now, httpDate);
      UpdateMetrics(now, httpDate);
      if visible == [] {
        WidebandSend();
      }
      if syncNow {
        ring := ring.Sync();
        syncNow := false;
      }
      world := world.(phase := M.Synced);
    }

    method LoopWait()
      modifies this`visible, this`posted, this`ring, this`world
      ensures State() == M.Wait(old(State()))
    {
      if visible == [] {
        visible, posted := posted, [];
      }
      if visible == [] {
        ring := ring.Submit();
      } else if |ring.log| - ring.head >= ring.cap - 4 {
        ring := ring.Submit();
      }
      world := world.(phase := M.Draining);
    }

    method LoopEnd()
      requires rps == 0 ==> releasedBuffers == [] || |releasedBuffers| <= ring.Room()
      modifies this`ring, this`world, this`releasedBuffers
      ensures State() == M.End(old(State()))
    {
      hide M.ReleaseBuffers;
      if rps == 0 {
        ReleaseBuffers();
      }
      world := world.(phase := M.Head);
    }

    /** Takes the oldest visible completion off the queue and processes it. */
    method DrainOne()
      requires Scratch() && Inv(State()) && CanDrain(State())
      modifies this, hotCache, jsonBuf, dataLake
      ensures M.Safe(M.Pop(old(State())), old(visible)[0]) && State() == M.Drain(old(State()))
    {
      hide Core, CanProcess, M.ProcessEntry, M.Safe;
      ghost var s := State();
      PendingHead(s);
      PopCore(s, Pending(s));
      CanProcessPopped(s, visible[0]);
      var cqe := visible[0];
      visible := visible[1..];
      ProcessEntry(cqe, Pending(State()));
    }

    // ----- the kernel, on the memory it shares with the server

    method KernelStep(e: Event)
      requires IsKernel(e) && Inv(State()) && Enabled(State(), e)
      modifies this`posted, this`buffers, this`ring, this`world
      ensures State() == Step(old(State()), e)
    {
      hide Core;
      match e
      case KernelTakes(n) => ring := ring.(consumed := n);
      case KernelAccepts(fd) =>
        posted := posted + [M.Cqe(CODE_ACCEPT, fd, 0)];
        world := world.(openFds := if fd > 0 then world.openFds + {fd} else world.openFds);
      case KernelAcks => posted := posted + [M.Cqe(BUFFER_REGISTER_CODE, 0, 0)];
      case KernelReceives(entry, buf, packet, low) => KernelFills(entry, buf, packet, low);
      case KernelCompletes(entry, result, flags) =>
        posted := posted + [M.Cqe(ring.log[entry].userData, result, flags)];
    }

    method KernelFills(entry: nat, buf: nat, packet: seq<byte>, low: nat)
      requires Inv(State()) && CanReceive(State(), entry, buf, packet, low)
      modifies this`posted, this`buffers, this`world
      ensures State() == Step(old(State()), KernelReceives(entry, buf, packet, low))
    {
      hide Inv, ClientOf;
      ReceiveKeeps(State(), entry, buf, packet, low);
      ghost var c := DataCqe(State(), entry, buf, packet, low);
      posted := posted + [M.Cqe(ring.log[entry].userData, |packet|, buf * 0x1_0000 + low)];
      buffers := buffers[buf := packet + buffers[buf][|packet|..]];
      world := world.(free := world.free - {buf}, arrivals := world.arrivals + [M.Arrival(ClientOf(c), packet)]);
    }

    /** The kernel's steps between two steps of the loop. */
    method KernelRuns(es: seq<Event>, ghost rest: seq<Event>, ghost goal: M.State)
      requires KernelSteps(es) && Leads(State(), es + rest, goal)
      modifies this`posted, this`buffers, this`ring, this`world
      ensures Leads(State(), rest, goal)
    {
      hide Leads, Inv, Step, Enabled;
      var i := 0;
      assert es[0..] == es;
      while i < |es|
        invariant i <= |es| && Leads(State(), es[i..] + rest, goal)
      {
        assert es[i..] + rest == [es[i]] + (es[i + 1..] + rest);
        RunCons(State(), es[i], es[i + 1..] + rest, goal);
        KernelStep(es[i]);
        i := i + 1;
      }
      assert es[i..] + rest == rest;
    }

    /** The drain loop and the end of a turn. */
    method DrainAll(drains: seq<seq<Event>>, ghost goal: M.State)
      requires Scratch() && Leads(State(), Drains(drains), goal)
      requires forall i :: 0 <= i < |drains| ==> KernelSteps(drains[i])
      modifies this, hotCache, jsonBuf, dataLake
      ensures Inv(State()) && State() == goal
    {
      hide Inv, Leads, CanDrain, Drains, KernelSteps, M.Drain, M.End;
      var k := drains;
      TurnDrain(State(), k, goal);
      while visible != []
        invariant Scratch() && Leads(State(), Drains(k), goal) && Inv(State())
        invariant k == [] <==> visible == []
        invariant forall i :: 0 <= i < |k| ==> KernelSteps(k[i])
        decreases |k|
      {
        TurnDrain(State(), k, goal);
        DrainOne();
        KernelRuns(k[0], Drains(k[1..]), goal);
        k := k[1..];
        TurnDrain(State(), k, goal);
      }
      TurnEnd(State(), goal);
      LoopEnd();
    }

    /** One turn of the loop, with whatever the kernel does meanwhile, is the run of its events. */
    method Iterate(now: int, httpDate: seq<byte>, m: Meanwhile)
      requires Scratch() && Inv(State()) && m.Ok()
      requires Guarantees.Valid(State(), Turn(now, httpDate, m))
      modifies this, hotCache, jsonBuf, dataLake
      ensures Inv(State()) && State() == Guarantees.Run(old(State()), Turn(now, httpDate, m))
    {
      ghost var goal := Guarantees.Run(State(), Turn(now, httpDate, m));
      assert Leads(State(), Turn(now, httpDate, m), goal);
      hide Inv, Leads, Guarantees.Valid, Guarantees.Run, Drains, KernelSteps, M.Top, M.Wait;
      TurnTop(State(), now, httpDate, m.top + AfterTop(m), goal);
      LoopTop(now, httpDate);
      KernelRuns(m.top, AfterTop(m), goal);
      TurnWait(State(), m.wait + Drains(m.drains), goal);
      LoopWait();
      KernelRuns(m.wait, Drains(m.drains), goal);
      DrainAll(m.drains, goal);
    }
  }
}
