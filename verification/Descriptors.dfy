/**
 Which socket a descriptor number stands for.  Numbers and sockets come apart in exactly two ways:
 closing an id that is already gone takes its default of 0xFF away from a connection that uses it, and
 closing a client while the kernel has an entry of it still to take leaves that entry to whoever gets
 the number next.
 */
module Descriptors {
  import opened Bytes
  import opened ServerInternals
  import opened Machine
  import opened Invariants
  import opened Preserved
  import opened Runs
  import Guarantees

  const DEFAULT_FD: int := 0xFF

  /** A connection the kernel accepted. */
  predicate Accepts(c: Cqe) { c.userData == CODE_ACCEPT && c.result > 0 }

  /** The descriptors of live clients and of accepted connections the server has not seen yet are open and pairwise distinct. */
  ghost predicate Distinct(fds: map<nat, int>, clients: set<nat>, openFds: set<int>, q: seq<Cqe>) {
    && (forall a :: a in clients ==> a in fds && fds[a] in openFds)
    && (forall a, b :: a in clients && b in clients && a != b ==> a in fds && b in fds && fds[a] != fds[b])
    && (forall i :: 0 <= i < |q| && Accepts(q[i]) ==> q[i].result in openFds)
    && (forall i, a :: 0 <= i < |q| && Accepts(q[i]) && a in clients ==> a in fds && fds[a] != q[i].result)
    && (forall i, j :: 0 <= i < j < |q| && Accepts(q[i]) && Accepts(q[j]) ==> q[i].result != q[j].result)
  }

  ghost predicate DistinctFds(s: State) { Distinct(s.fds, s.out.Keys, s.openFds, Pending(s)) }

  /** Some live client, or some connection not seen yet, has this descriptor. */
  ghost predicate InUse(fds: map<nat, int>, clients: set<nat>, q: seq<Cqe>, fd: int) {
    (exists a :: a in clients && a in fds && fds[a] == fd)
    || (exists i :: 0 <= i < |q| && Accepts(q[i]) && q[i].result == fd)
  }

  /** The client a step closes, if it closes one. */
  function Closing(s: State, e: Event): Option<nat> {
    if !e.LoopDrain? || s.visible == [] then None
    else
      match DispatchOf(s, s.visible[0])
      case Response(Close(client)) => Some(client)
      case _ => None
  }

  /** Closing an id that is already gone takes the default descriptor away from a connection that uses it. */
  ghost predicate Hit(s: State, e: Event) {
    match Closing(s, e)
    case Some(client) => client !in s.fds && InUse(s.fds, s.out.Keys, Pending(s), DEFAULT_FD)
    case None => false
  }

  // ----- the queue

  lemma DistinctDrop(fds: map<nat, int>, clients: set<nat>, openFds: set<int>, c: Cqe, q: seq<Cqe>)
    requires Distinct(fds, clients, openFds, [c] + q)
    ensures Distinct(fds, clients, openFds, q)
    ensures Accepts(c) ==> c.result in openFds
    ensures Accepts(c) ==> forall a :: a in clients ==> a in fds && fds[a] != c.result
    ensures Accepts(c) ==> forall i :: 0 <= i < |q| && Accepts(q[i]) ==> q[i].result != c.result
  {
    hide Accepts;
    var all := [c] + q;
    assert all[0] == c;
    assert forall i :: 0 <= i < |q| ==> q[i] == all[i + 1];
  }

  lemma DistinctPost(fds: map<nat, int>, clients: set<nat>, openFds: set<int>, q: seq<Cqe>, c: Cqe)
    requires Distinct(fds, clients, openFds, q)
    requires Accepts(c) ==> c.result !in openFds
    ensures Distinct(fds, clients, if Accepts(c) then openFds + {c.result} else openFds, q + [c])
  {
    hide Accepts;
  }

  // ----- the drain

  lemma DistinctAccept(fds: map<nat, int>, clients: set<nat>, openFds: set<int>, q: seq<Cqe>, id: nat, fd: int)
    requires Distinct(fds, clients, openFds, q) && fd in openFds && id !in clients
    requires forall a :: a in clients ==> a in fds && fds[a] != fd
    requires forall i :: 0 <= i < |q| && Accepts(q[i]) ==> q[i].result != fd
    ensures Distinct(fds[id := fd], clients + {id}, openFds, q)
  {
    hide Accepts;
  }

  lemma DistinctClose(fds: map<nat, int>, clients: set<nat>, openFds: set<int>, q: seq<Cqe>, client: nat)
    requires Distinct(fds, clients, openFds, q) && client in clients && client in fds
    ensures Distinct(fds - {client}, clients - {client}, openFds - {fds[client]}, q)
  {
    hide Accepts;
  }

  lemma DistinctStale(fds: map<nat, int>, clients: set<nat>, openFds: set<int>, q: seq<Cqe>, client: nat)
    requires Distinct(fds, clients, openFds, q) && client !in fds && client !in clients
    ensures Distinct(fds - {client}, clients - {client}, openFds - {DEFAULT_FD}, q) <==> !InUse(fds, clients, q, DEFAULT_FD)
  {
    hide Accepts;
    assert fds - {client} == fds && clients - {client} == clients;
  }

  /** Draining one completion. */
  lemma DistinctDrain(s: State)
    requires Inv(s) && CanDrain(s) && DistinctFds(s)
    ensures Safe(Pop(s), s.visible[0])
    ensures DistinctFds(Drain(s)) <==> !Hit(s, LoopDrain)
  {
    hide Inv, CanProcess, Distinct, DispatchOf, Accepts, InUse, CqeOk, Pending, Drain, Safe;
    DrainKeeps(s);
    var c, s1 := s.visible[0], Pop(s);
    var q, r := Pending(s1), Drain(s);
    PendingHead(s);
    SameDispatch(s, c);
    DistinctDrop(s.fds, s.out.Keys, s.openFds, c, q);
    if !Accepts(c) { InUseDrop(s.fds, s.out.Keys, c, q); }
    DispatchFacts(s, c, q);
    var d := DispatchOf(s1, c);
    if d.Accept? {
      if c.result > 0 {
        DistinctAccept(s.fds, s.out.Keys, s.openFds, q, s.nextId, c.result);
      }
    } else if d.Response? && d.action.Close? {
      if d.action.client in s.fds {
        DistinctClose(s.fds, s.out.Keys, s.openFds, q, d.action.client);
      } else {
        DistinctStale(s.fds, s.out.Keys, s.openFds, q, d.action.client);
      }
    }
  }

  lemma InUseDrop(fds: map<nat, int>, clients: set<nat>, c: Cqe, q: seq<Cqe>)
    requires !Accepts(c)
    ensures InUse(fds, clients, [c] + q, DEFAULT_FD) <==> InUse(fds, clients, q, DEFAULT_FD)
  {
    hide Accepts;
    var all := [c] + q;
    assert all[0] == c;
    assert forall i :: 0 <= i < |q| ==> q[i] == all[i + 1];
    if i :| 0 <= i < |all| && Accepts(all[i]) && all[i].result == DEFAULT_FD {
      assert q[i - 1] == all[i];
    }
  }

  /** An accept completion is dispatched as an accept, a close names a client past the reserved slots, and a new id is new. */
  lemma DispatchFacts(s: State, c: Cqe, q: seq<Cqe>)
    requires Inv(s) && Pending(s) == [c] + q
    ensures Accepts(c) <==> DispatchOf(s, c).Accept? && c.result > 0
    ensures s.nextId !in s.out
    ensures DispatchOf(s, c).Response? && DispatchOf(s, c).action.Close? ==>
      (DispatchOf(s, c).action.client in s.fds <==> DispatchOf(s, c).action.client in s.out)
  {
    hide Core, Unpack, CqeOk;
    CoreParts(s, [c] + q);
    DropQueue(c, q, s.fdOf, s.ubdma);
    if DispatchOf(s, c).Response? && DispatchOf(s, c).action.Close? {
      CloseMeansCloses(s, c);
    }
  }

  /** A step keeps live descriptors distinct and open exactly when it is no stale close of a descriptor in use. */
  lemma DistinctStep(s: State, e: Event)
    requires Inv(s) && Enabled(s, e) && DistinctFds(s)
    ensures DistinctFds(Step(s, e)) <==> !Hit(s, e)
  {
    hide Inv, CanDrain, Distinct, Accepts, Top, Wait, Drain, End, Receive, CqeOk, Hit, Closing;
    if !e.LoopDrain? { NoHit(s, e); }
    match e
    case KernelTakes(n) =>
    case KernelAccepts(fd) =>
      AcceptCqe(fd);
      PostPending(s, Cqe(CODE_ACCEPT, fd, 0));
      DistinctPost(s.fds, s.out.Keys, s.openFds, Pending(s), Cqe(CODE_ACCEPT, fd, 0));
    case KernelAcks =>
      AckCqe();
      PostPending(s, Cqe(BUFFER_REGISTER_CODE, 0, 0));
      DistinctPost(s.fds, s.out.Keys, s.openFds, Pending(s), Cqe(BUFFER_REGISTER_CODE, 0, 0));
    case KernelReceives(entry, buf, packet, low) =>
      ReceiveKeeps(s, entry, buf, packet, low);
      ReceiveCqe(s, entry, buf, packet, low);
      DistinctPost(s.fds, s.out.Keys, s.openFds, Pending(s), DataCqe(s, entry, buf, packet, low));
    case KernelCompletes(entry, result, flags) =>
      CompleteCqe(s, entry, result, flags);
      PostPending(s, Cqe(s.ring.log[entry].userData, result, flags));
      DistinctPost(s.fds, s.out.Keys, s.openFds, Pending(s), Cqe(s.ring.log[entry].userData, result, flags));
    case LoopTop(clock, date) => TopKeeps(s, clock, date);
    case LoopWait => WaitKeeps(s);
    case LoopDrain => DistinctDrain(s);
    case LoopEnd => EndKeeps(s);
  }

  lemma NoHit(s: State, e: Event)
    requires !e.LoopDrain?
    ensures !Hit(s, e)
  {
  }

  lemma PostPending(s: State, c: Cqe)
    ensures s.visible + (s.posted + [c]) == Pending(s) + [c]
  {
  }

  lemma AcceptCqe(fd: int)
    ensures Accepts(Cqe(CODE_ACCEPT, fd, 0)) <==> fd > 0
  {
  }

  lemma AckCqe()
    ensures !Accepts(Cqe(BUFFER_REGISTER_CODE, 0, 0))
  {
  }

  lemma ReceiveCqe(s: State, entry: nat, buf: nat, packet: seq<byte>, low: nat)
    requires Inv(s) && CanReceive(s, entry, buf, packet, low)
    ensures !Accepts(DataCqe(s, entry, buf, packet, low))
  {
    hide Core, ClientOf, CodeOf, Closes;
    CoreParts(s, Pending(s));
    EntryDecodes(s, entry, |packet|, buf * 0x1_0000 + low);
  }

  lemma CompleteCqe(s: State, entry: nat, result: int, flags: nat)
    requires Inv(s) && CanComplete(s, entry, result)
    ensures !Accepts(Cqe(s.ring.log[entry].userData, result, flags))
  {
    hide Core, ClientOf, CodeOf, Closes;
    CoreParts(s, Pending(s));
    EntryDecodes(s, entry, result, flags);
  }

  // ----- entries the kernel has not taken

  predicate OnConnection(e: Sqe) { e.op.Send? || e.op.RecvMulti? || e.op.PollAdd? }

  /** The client an entry was pushed for. */
  function EntryClient(e: Sqe): nat { if e.userData >= REQ_RESP_OFFSET then Unpack(e.userData).clientId else 0 }

  /** Every entry on a connection that the kernel has not taken is for a client that is still there. */
  ghost predicate Untaken(log: seq<Sqe>, consumed: nat, clients: set<nat>) {
    forall i :: consumed <= i < |log| && OnConnection(log[i]) ==> EntryClient(log[i]) in clients
  }

  /** Numbers and sockets agree: descriptors are distinct and open, and no entry of a closed client waits to be taken. */
  ghost predicate Sockets(s: State) {
    DistinctFds(s) && Untaken(s.ring.log, s.ring.consumed, s.out.Keys)
  }

  /** Some entry of the client waits to be taken. */
  ghost predicate Waits(ring: Ring, client: nat) {
    exists i :: ring.consumed <= i < |ring.log| && OnConnection(ring.log[i]) && EntryClient(ring.log[i]) == client
  }

  /** Closing a client of which the kernel has an entry still to take. */
  ghost predicate Cut(s: State, e: Event) {
    match Closing(s, e)
    case Some(client) => Waits(s.ring, client)
    case None => false
  }

  /** The log only grows, on connections only by entries for clients that are there, and the kernel never gives an entry back. */
  ghost predicate RingGrows(r: Ring, ring: Ring, clients: set<nat>) {
    && r.cap == ring.cap && |ring.log| <= |r.log| && r.log[..|ring.log|] == ring.log && ring.consumed <= r.consumed
    && forall i :: |ring.log| <= i < |r.log| && OnConnection(r.log[i]) ==> EntryClient(r.log[i]) in clients && r.consumed <= i
  }

  lemma RingRefl(ring: Ring, clients: set<nat>)
    ensures RingGrows(ring, ring, clients)
  {
  }

  lemma UntakenGrows(r: Ring, ring: Ring, more: set<nat>, clients: set<nat>)
    requires RingGrows(r, ring, more) && clients <= more
    requires Untaken(ring.log, ring.consumed, clients)
    ensures Untaken(r.log, r.consumed, more)
  {
    hide OnConnection, EntryClient;
    forall i | r.consumed <= i < |r.log| && OnConnection(r.log[i]) ensures EntryClient(r.log[i]) in more {
      if i < |ring.log| {
        assert r.log[i] == r.log[..|ring.log|][i] == ring.log[i];
      }
    }
  }

  /** Closing a client leaves its untaken entries without one. */
  lemma UntakenClose(ring: Ring, clients: set<nat>, client: nat)
    requires Untaken(ring.log, ring.consumed, clients)
    ensures Untaken(ring.log, ring.consumed, clients - {client}) <==> !Waits(ring, client)
  {
    hide OnConnection, EntryClient;
  }

  lemma PushRing(ring: Ring, e: Sqe, clients: set<nat>)
    requires ring.consumed <= |ring.log| && EntryClient(e) in clients
    ensures RingGrows(ring.Push(e), ring, clients)
  {
    hide OnConnection, EntryClient;
  }

  lemma RingTrans(a: Ring, b: Ring, c: Ring, clients: set<nat>)
    requires RingGrows(b, a, clients) && RingGrows(c, b, clients) && c.consumed == b.consumed
    ensures RingGrows(c, a, clients)
  {
    hide OnConnection, EntryClient;
    assert c.log[..|a.log|] == c.log[..|b.log|][..|a.log|];
    forall i | |a.log| <= i < |c.log| && OnConnection(c.log[i]) ensures EntryClient(c.log[i]) in clients && c.consumed <= i {
      if i < |b.log| { assert c.log[i] == c.log[..|b.log|][i] == b.log[i]; }
    }
  }

  lemma AcceptRing(s: State, fd: int)
    requires Cursors(s.ring, s.syncNow) && (fd > 0 ==> 1 <= s.nextId < ID_LIMIT)
    ensures var r := ProcessEntryAccept(s, fd); RingGrows(r.ring, s.ring, r.out.Keys)
  {
    hide Tag, EntryClient, RingGrows;
    var id, clients := s.nextId, s.out.Keys + {s.nextId};
    RingRefl(s.ring, s.out.Keys);
    var poll, recv := Sqe(PollAdd(fd), Tag(id, POLL_EVENT)), Sqe(RecvMulti(fd), Tag(id, INIT_REQUEST));
    if fd > 0 {
      TagClient(id, POLL_EVENT, poll);
      TagClient(id, INIT_REQUEST, recv);
      assert ProcessEntryAccept(s, fd).out.Keys == clients;
      if s.ubdma {
        PushRing(s.ring, poll, clients);
        var r := s.ring.Push(poll).Sync();
        SyncRing(r, s.ring.Push(poll), s.ring, clients);
        PushRing(r, recv, clients);
        RingTrans(s.ring, r, r.Push(recv), clients);
      } else {
        PushRing(s.ring, recv, clients);
      }
    }
  }

  lemma SyncRing(r: Ring, mid: Ring, ring: Ring, clients: set<nat>)
    requires RingGrows(mid, ring, clients) && r == mid.Sync()
    ensures RingGrows(r, ring, clients)
  {
    hide OnConnection, EntryClient;
  }

  lemma TagClient(id: nat, code: u16, e: Sqe)
    requires 1 <= id < ID_LIMIT && code < 0x8000 && e.userData == Tag(id, code)
    ensures EntryClient(e) == id
  {
    hide Tag, Unpack;
    TagReads(id, code);
  }

  lemma ReleaseRing(s: State)
    requires Cursors(s.ring, s.syncNow)
    ensures RingGrows(ReleaseBuffers(s).ring, s.ring, s.out.Keys) && ReleaseBuffers(s).out == s.out
  {
    hide Provides, EntryClient;
    RingRefl(s.ring, s.out.Keys);
    ProvidesBuffers(s.released);
  }

  lemma ProvidesBuffers(ids: seq<nat>)
    ensures forall i :: 0 <= i < |ids| ==> !OnConnection(Provides(ids)[i])
  {
  }

  lemma FlushRing(s: State)
    requires Tables(s.fds, s.nextId, s.out, s.fdOf) && Cursors(s.ring, s.syncNow)
    ensures RingGrows(WidebandSend(s).ring, s.ring, s.out.Keys)
  {
    hide SendsFrom, Tables, OnConnection, EntryClient;
    FlushedClients(s.out, s.fds, s.fdOf, 0, s.nextId);
  }

  lemma {:induction false} FlushedClients(out: map<nat, seq<byte>>, fds: map<nat, int>, fdOf: map<nat, int>, id: nat, end: nat)
    requires Tables(fds, end, out, fdOf)
    ensures forall i :: 0 <= i < |SendsFrom(out, fds, id, end)| ==> EntryClient(SendsFrom(out, fds, id, end)[i]) in out
    decreases end - id
  {
    hide Tag, Unpack;
    if id < end {
      FlushedClients(out, fds, fdOf, id + 1, end);
      if id in out { TagReads(id, SEND_EVENT); }
    }
  }

  lemma ReplyRing(s: State, flags: nat, client: nat, result: int)
    requires Cursors(s.ring, s.syncNow) && (result <= BUFFER_SIZE ==> Addressable(s, client, flags, result))
    ensures var r := RequestReply(s, flags, client, result); RingGrows(r.ring, s.ring, r.out.Keys)
  {
    hide Answers, Response.Stream, AfterReply, BufOf, ReleaseBuffers, RingGrows, Reply1;
    RingRefl(s.ring, s.out.Keys);
    if result <= BUFFER_SIZE {
      ReplyRing1(s, flags, client, result);
      ReleaseRing(Reply1(s, flags, client, result));
    }
  }

  lemma ReplyRing1(s: State, flags: nat, client: nat, result: nat)
    requires Addressable(s, client, flags, result)
    ensures var r := Reply1(s, flags, client, result);
      r.ring == s.ring && r.out.Keys == s.out.Keys && (Cursors(s.ring, s.syncNow) ==> Cursors(r.ring, r.syncNow))
  {
    hide Answers, Response.Stream, AfterReply, BufOf;
  }

  lemma PollRing(s: State, client: nat)
    requires s.lastBuf.Some? ==> s.lastBuf.value < |s.buffers|
    ensures Ubdma(s, client).ring == s.ring
  {
    hide Answers, Response.Stream;
  }

  lemma CloseRing(s: State, client: nat)
    ensures CloseConnection(s, client).ring == s.ring
  {
  }

  lemma ProcessRing(s: State, c: Cqe)
    requires Safe(s, c) && Cursors(s.ring, s.syncNow) 
    requires DispatchOf(s, c).Accept? && c.result > 0 ==> 1 <= s.nextId < ID_LIMIT
    ensures RingGrows(ProcessEntry(s, c).ring, s.ring, ProcessEntry(s, c).out.Keys)
    ensures DispatchOf(s, c).Response? && DispatchOf(s, c).action.Close? ==> ProcessEntry(s, c).ring == s.ring
  {
    hide DispatchOf, RingGrows, Addressable, ProcessEntryAccept, CloseConnection, Ubdma, RequestReply, ReleaseBuffers, Cursors;
    RingRefl(s.ring, ProcessEntry(s, c).out.Keys);
    match DispatchOf(s, c)
    case Accept => AcceptRing(s, c.result);
    case Response(Release) => ReleaseRing(s);
    case Response(Close(client)) => CloseRing(s, client);
    case Response(Poll(client)) => PollRing(s, client);
    case Response(Reply(client)) => ReplyRing(s, c.flags, client, c.result);
    case _ =>
  }

  /** Closing takes the client away and leaves the ring; every other step keeps all clients. */
  ghost predicate Clients(r: State, s: State, e: Event) {
    match Closing(s, e)
    case Some(client) => r.ring == s.ring && r.out.Keys == s.out.Keys - {client}
    case None => s.out.Keys <= r.out.Keys
  }

  lemma DrainRing(s: State)
    requires Inv(s) && CanDrain(s)
    ensures Safe(Pop(s), s.visible[0])
    ensures RingGrows(Drain(s).ring, s.ring, Drain(s).out.Keys) && Clients(Drain(s), s, LoopDrain)
  {
    hide Core, DispatchOf, RingGrows, ProcessEntry, Safe, CanProcess, Tables, Cursors;
    DrainKeeps(s);
    var c := s.visible[0];
    SameDispatch(s, c);
    CoreParts(s, Pending(s));
    CanProcessPopped(s, c);
    AcceptRoom(Pop(s), c);
    ProcessRing(Pop(s), c);
  }

  lemma AcceptRoom(s: State, c: Cqe)
    requires CanProcess(s, c) && Tables(s.fds, s.nextId, s.out, s.fdOf)
    ensures DispatchOf(s, c).Accept? && c.result > 0 ==> 1 <= s.nextId < ID_LIMIT
  {
    hide DispatchOf, ReplyFits;
  }

  lemma TopRing(s: State, clock: int, date: seq<byte>)
    requires Inv(s) && s.phase == Head
    ensures var r := Top(s, clock, date); RingGrows(r.ring, s.ring, r.out.Keys) && r.out.Keys == s.out.Keys
  {
    hide Core, RingGrows, WidebandSend, Tables, Cursors, Metrics, Top;
    CoreParts(s, Pending(s));
    MetricsRing(s, clock, date);
    var s1 := Metrics(s, clock, date);
    FlushRing(s1);
    FlushFrame(s1);
    TopParts(s, s1, clock, date);
    SyncRing(WidebandSend(s1).ring.Sync(), WidebandSend(s1).ring, s.ring, s.out.Keys);
  }

  lemma MetricsRing(s: State, clock: int, date: seq<byte>)
    ensures var r := Metrics(s, clock, date);
      r.ring == s.ring && r.out == s.out && r.fds == s.fds && r.nextId == s.nextId && r.fdOf == s.fdOf
      && r.syncNow == s.syncNow && r.visible == s.visible
  {
    if clock == s.clock {
      assert Metrics(s, clock, date) == s;
    }
  }

  lemma TopParts(s: State, s1: State, clock: int, date: seq<byte>)
    requires s1 == Metrics(s, clock, date) && s1.visible == []
    ensures var r, s2 := Top(s, clock, date), WidebandSend(s1);
      r.out == s2.out && (r.ring == s2.ring || r.ring == s2.ring.Sync())
  {
    hide Metrics, WidebandSend;
  }

  lemma WaitRing(s: State)
    requires Inv(s)
    ensures RingGrows(Wait(s).ring, s.ring, Wait(s).out.Keys) && Wait(s).out == s.out
  {
    hide Core, Wait, RingGrows;
    CoreParts(s, Pending(s));
    WaitParts(s);
    RingRefl(s.ring, s.out.Keys);
    TakesRing(s.ring, s.ring.synced, s.out.Keys);
  }

  lemma WaitParts(s: State)
    ensures Wait(s).out == s.out && (Wait(s).ring == s.ring || Wait(s).ring == s.ring.Submit())
  {
  }

  lemma EndRing(s: State)
    requires Inv(s)
    ensures RingGrows(End(s).ring, s.ring, End(s).out.Keys) && End(s).out == s.out
  {
    hide Core, RingGrows, ReleaseBuffers, Cursors;
    CoreParts(s, Pending(s));
    ReleaseRing(s);
    RingRefl(s.ring, s.out.Keys);
  }

  /** What a step does to the ring and to the clients. */
  lemma StepRing(s: State, e: Event)
    requires Inv(s) && Enabled(s, e)
    ensures RingGrows(Step(s, e).ring, s.ring, Step(s, e).out.Keys) && Clients(Step(s, e), s, e)
  {
    InCursors(s);
    hide Inv, RingGrows, DispatchOf, CanDrain, CanReceive, CanComplete, Top, Wait, Drain, End;
    RingRefl(s.ring, s.out.Keys);
    match e
    case KernelTakes(n) => TakesRing(s.ring, n, s.out.Keys);
    case LoopTop(clock, date) => TopRing(s, clock, date);
    case LoopWait => WaitRing(s);
    case LoopDrain => DrainRing(s);
    case LoopEnd => EndRing(s);
    case _ =>
  }

  lemma InCursors(s: State)
    requires Inv(s)
    ensures s.ring.synced <= |s.ring.log|
  {
    hide Core;
    CoreParts(s, Pending(s));
  }

  lemma TakesRing(ring: Ring, n: nat, clients: set<nat>)
    requires ring.consumed <= n <= |ring.log|
    ensures RingGrows(ring.(consumed := n), ring, clients)
  {
  }

  /** A step keeps numbers and sockets in agreement if and only if it neither hits nor cuts. */
  lemma SocketsStep(s: State, e: Event)
    requires Inv(s) && Enabled(s, e) && Sockets(s)
    ensures Sockets(Step(s, e)) <==> !Hit(s, e) && !Cut(s, e)
  {
    hide Inv, Step, Enabled, Hit, DistinctFds, Untaken, RingGrows, Closing, Waits;
    DistinctStep(s, e);
    StepRing(s, e);
    var r := Step(s, e);
    match Closing(s, e)
    case Some(client) => UntakenClose(s.ring, s.out.Keys, client);
    case None => UntakenGrows(r.ring, s.ring, r.out.Keys, s.out.Keys);
  }

  // ----- runs

  /** No event of the run hits or cuts. */
  ghost predicate Undisturbed(s: State, es: seq<Event>)
    requires Inv(s) && Guarantees.Valid(s, es)
    decreases |es|
  {
    es == [] || (!Hit(s, es[0]) && !Cut(s, es[0]) && (StepKeeps(s, es[0]); Undisturbed(Step(s, es[0]), es[1..])))
  }

  /** Numbers and sockets agree in every state of the run. */
  ghost predicate Throughout(s: State, es: seq<Event>)
    requires Inv(s) && Guarantees.Valid(s, es)
    decreases |es|
  {
    Sockets(s) && (es == [] || (StepKeeps(s, es[0]); Throughout(Step(s, es[0]), es[1..])))
  }

  lemma {:induction false} ThroughoutIff(s: State, es: seq<Event>)
    requires Inv(s) && Guarantees.Valid(s, es) && Sockets(s)
    ensures Throughout(s, es) <==> Undisturbed(s, es)
    ensures Undisturbed(s, es) ==> Sockets(Guarantees.Run(s, es))
    decreases |es|
  {
    hide Inv, Step, Enabled, Hit, Cut, Sockets;
    if es != [] {
      StepKeeps(s, es[0]);
      SocketsStep(s, es[0]);
      if Sockets(Step(s, es[0])) {
        ThroughoutIff(Step(s, es[0]), es[1..]);
      }
    }
  }

  /** A run from set-up in which no event hits or cuts. */
  ghost predicate Calm(ubdma: bool, cap: nat, es: seq<Event>) {
    Guarantees.InitialInv(ubdma, cap);
    Guarantees.Valid(Initial(ubdma, cap), es) && Undisturbed(Initial(ubdma, cap), es)
  }

  /** A run from set-up in which numbers and sockets agree all along. */
  ghost predicate Agreeing(ubdma: bool, cap: nat, es: seq<Event>) {
    Guarantees.InitialInv(ubdma, cap);
    Guarantees.Valid(Initial(ubdma, cap), es) && Throughout(Initial(ubdma, cap), es)
  }

  /** Numbers and sockets agree all along a run if and only if no event hits or cuts. */
  lemma SocketsIff(ubdma: bool, cap: nat, es: seq<Event>)
    ensures Agreeing(ubdma, cap, es) <==> Calm(ubdma, cap, es)
  {
    hide Inv, Guarantees.Valid, Throughout, Undisturbed, Sockets;
    Guarantees.InitialInv(ubdma, cap);
    SocketsAtStart(ubdma, cap);
    if Guarantees.Valid(Initial(ubdma, cap), es) {
      ThroughoutIff(Initial(ubdma, cap), es);
    }
  }

  lemma SocketsAtStart(ubdma: bool, cap: nat)
    ensures Sockets(Initial(ubdma, cap))
  {
    hide SetupEntries, BlankBuffers, ReserveWrites, Below;
  }

  /** Descriptor `fd` is open and belongs to live client `c` and to no other connection, live or waiting. */
  ghost predicate OwnSocket(s: State, c: nat, fd: int) {
    && c in s.out && c in s.fds && s.fds[c] == fd && fd in s.openFds
    && (forall d :: d in s.out && d != c ==> d in s.fds && s.fds[d] != fd)
    && (forall i :: 0 <= i < |Pending(s)| && Accepts(Pending(s)[i]) ==> Pending(s)[i].result != fd)
  }

  /** What `r` has taken on connections beyond `s` is taken while the descriptor is the socket of the client it was pushed for. */
  ghost predicate TakenByOwners(s: State, r: Ring) {
    forall i :: s.ring.consumed <= i < r.consumed && i < |r.log| && OnConnection(r.log[i]) ==>
      OwnSocket(s, EntryClient(r.log[i]), r.log[i].op.fd)
  }

  /**
   In a run without hits and cuts every live client has a socket of its own, and whatever the kernel
   takes next on a connection it takes while the descriptor is the socket of the client it was pushed for.
   */
  lemma ClientsKeepTheirSockets(ubdma: bool, cap: nat, es: seq<Event>, s: State, e: Event)
    requires Guarantees.Reaches(ubdma, cap, es, s) && Calm(ubdma, cap, es)
    ensures forall c :: c in s.out ==> c in s.fds && OwnSocket(s, c, s.fds[c])
    ensures (Guarantees.ReachesInv(ubdma, cap, es, s); Enabled(s, e) ==> TakenByOwners(s, Step(s, e).ring))
  {
    hide Inv, Guarantees.Run, Guarantees.Valid, Undisturbed, Sockets, Step, Enabled, OwnSocket, OnConnection, RingGrows;
    Guarantees.InitialInv(ubdma, cap);
    Guarantees.ReachesInv(ubdma, cap, es, s);
    SocketsAtStart(ubdma, cap);
    ThroughoutIff(Initial(ubdma, cap), es);
    ClientsOwn(s);
    if Enabled(s, e) {
      StepRing(s, e);
      EntriesOwn(s, Step(s, e).ring, Step(s, e).out.Keys);
    }
  }

  lemma ClientsOwn(s: State)
    requires Inv(s) && Sockets(s)
    ensures forall c :: c in s.out ==> c in s.fds && OwnSocket(s, c, s.fds[c])
  {
    hide Inv, Accepts, Untaken;
  }

  lemma EntriesOwn(s: State, r: Ring, clients: set<nat>)
    requires Inv(s) && Sockets(s) && RingGrows(r, s.ring, clients)
    ensures TakenByOwners(s, r)
  {
    hide Core, OwnSocket, DistinctFds, EntryOk, Tables;
    CoreParts(s, Pending(s));
    ClientsOwn(s);
    forall i | s.ring.consumed <= i < r.consumed && i < |r.log| && OnConnection(r.log[i])
      ensures OwnSocket(s, EntryClient(r.log[i]), r.log[i].op.fd)
    {
      assert i < |s.ring.log|;
      assert r.log[i] == r.log[..|s.ring.log|][i] == s.ring.log[i];
      assert EntryOk(s.ring.log[i], s.fdOf, s.ubdma);
      EntryDescriptor(s, s.ring.log[i]);
    }
  }

  lemma EntryDescriptor(s: State, e: Sqe)
    requires EntryOk(e, s.fdOf, s.ubdma) && Tables(s.fds, s.nextId, s.out, s.fdOf)
    requires OnConnection(e) && EntryClient(e) in s.out
    ensures EntryClient(e) in s.fds && s.fds[EntryClient(e)] == e.op.fd
  {
    hide Tag, Unpack;
  }
}
