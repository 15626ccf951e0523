/**
 When the worker can take its next step.  The ring never holds more than its capacity, and a run ends
 exactly when a bulk push does not fit, a reply does not fit, or the ids run out.  A bulk push is retried or
 aborts, and since the kernel's head is read only at a sync, nothing the kernel does helps.  In the other two
 cases the source goes on with a write past the buffer or a cut id, where this model does not follow it.
 */
module Progress {
  import opened Bytes
  import opened ServerInternals
  import opened Machine
  import opened Invariants
  import opened Histories
  import opened Preserved
  import opened Runs
  import Response
  import Guarantees
  import Descriptors

  // ----- the ring never overflows

  predicate Sound(r: Ring) { 0 <= r.Room() && r.head <= r.consumed <= r.synced <= |r.log| }

  lemma SoundFrom(s: State)
    requires Inv(s) && s.ring.Room() >= 0
    ensures Sound(s.ring)
  {
    hide Core;
    CoreParts(s, Pending(s));
  }

  lemma ReleaseRoom(s: State)
    requires Sound(s.ring) && |s.released| <= s.ring.Room()
    ensures ReleaseBuffers(s).ring.Room() >= 0
  {
  }

  lemma AcceptRoom(s: State, fd: int)
    requires Sound(s.ring)
    ensures ProcessEntryAccept(s, fd).ring.Room() >= 0
  {
    hide Tag;
  }

  lemma ReplyRoom(s: State, flags: nat, client: nat, result: int)
    requires Sound(s.ring) && (result <= BUFFER_SIZE ==> Addressable(s, client, flags, result))
    requires |s.released| + 1 == RELEASE_AT ==> |s.released| + 1 <= s.ring.Room()
    ensures RequestReply(s, flags, client, result).ring.Room() >= 0
  {
    hide Answers, Response.Stream, AfterReply, BufOf, ReleaseBuffers, Reply1, Addressable, Cursors;
    if result <= BUFFER_SIZE {
      NotNegative(s, client, flags, result);
      ReplyFrame(s, flags, client, result);
      Descriptors.ReplyRing1(s, flags, client, result);
      if |s.released| + 1 == RELEASE_AT { ReleaseRoom(Reply1(s, flags, client, result)); }
    }
  }

  lemma NotNegative(s: State, client: nat, flags: nat, result: int)
    requires Addressable(s, client, flags, result)
    ensures result >= 0
  {
  }

  lemma ProcessRoom(s: State, c: Cqe)
    requires Sound(s.ring) && Safe(s, c) && CanProcess(s, c)
    ensures ProcessEntry(s, c).ring.Room() >= 0
  {
    hide DispatchOf, Addressable, ReplyFits, ProcessEntryAccept, CloseConnection, Ubdma, RequestReply, ReleaseBuffers;
    match DispatchOf(s, c)
    case Accept => AcceptRoom(s, c.result);
    case Response(Release) => ReleaseRoom(s);
    case Response(Close(client)) => Descriptors.CloseRing(s, client);
    case Response(Poll(client)) => Descriptors.PollRing(s, client);
    case Response(Reply(client)) => ReplyRoom(s, c.flags, client, c.result);
    case _ =>
  }

  lemma DrainRoom(s: State)
    requires Inv(s) && CanDrain(s) && Sound(s.ring)
    ensures Safe(Pop(s), s.visible[0]) && Drain(s).ring.Room() >= 0
  {
    hide Inv, CanProcess, ProcessEntry, Safe, Sound;
    DrainKeeps(s);
    CanProcessPopped(s, s.visible[0]);
    ProcessRoom(Pop(s), s.visible[0]);
  }

  lemma TopRoom(s: State, clock: int, date: seq<byte>)
    requires Inv(s) && s.phase == Head && Sound(s.ring) && |Sends(s)| <= s.ring.Room()
    ensures Top(s, clock, date).ring.Room() >= 0
  {
    hide Core, WidebandSend, Metrics, Top, SendsFrom;
    Descriptors.MetricsRing(s, clock, date);
    MetricsFrame(s, clock, date);
    var s1 := Metrics(s, clock, date);
    assert Sends(s1) == Sends(s);
    FlushRoom(s1);
    Descriptors.TopParts(s, s1, clock, date);
  }

  lemma FlushRoom(s: State)
    requires Sound(s.ring) && |Sends(s)| <= s.ring.Room()
    ensures Sound(WidebandSend(s).ring)
  {
    hide SendsFrom;
  }

  /** No step makes the ring hold more than its capacity. */
  lemma StepRoom(s: State, e: Event)
    requires Inv(s) && Enabled(s, e) && s.ring.Room() >= 0
    ensures Step(s, e).ring.Room() >= 0
  {
    SoundFrom(s);
    hide Inv, CanDrain, CanReceive, CanComplete, Top, Wait, Drain, End, Sends;
    match e
    case LoopTop(clock, date) => TopRoom(s, clock, date);
    case LoopWait => Descriptors.WaitParts(s);
    case LoopDrain => DrainRoom(s);
    case LoopEnd => EndRoom(s);
    case _ =>
  }

  lemma EndRoom(s: State)
    requires Sound(s.ring) && (s.rps == 0 ==> |s.released| <= s.ring.Room())
    ensures End(s).ring.Room() >= 0
  {
    hide ReleaseBuffers;
    if s.rps == 0 { ReleaseRoom(s); }
  }

  lemma {:induction false} RunRoom(s: State, es: seq<Event>)
    requires Inv(s) && Guarantees.Valid(s, es) && s.ring.Room() >= 0
    ensures Guarantees.Run(s, es).ring.Room() >= 0 && Guarantees.Run(s, es).ring.cap == s.ring.cap
    decreases |es|
  {
    hide Inv, Step, Enabled;
    if es != [] {
      StepKeeps(s, es[0]);
      StepRoom(s, es[0]);
      Descriptors.StepRing(s, es[0]);
      RunRoom(Step(s, es[0]), es[1..]);
    }
  }

  /** A ring with room for set-up never holds more than its capacity. */
  lemma RingWithinCapacity(ubdma: bool, cap: nat, es: seq<Event>, s: State)
    requires Guarantees.Reaches(ubdma, cap, es, s) && cap >= BUFFERS_COUNT + 16
    ensures s.ring.cap == cap && |s.ring.log| - s.ring.head <= cap
  {
    hide Inv, Guarantees.Valid, Guarantees.Run, SetupEntries, ReserveWrites, BlankBuffers, Below;
    Guarantees.InitialInv(ubdma, cap);
    RunRoom(Initial(ubdma, cap), es);
  }

  // ----- what the next step needs

  /** Pushing n entries at once is skipped for none, and otherwise needs room for all of them. */
  predicate Takes(ring: Ring, n: nat) { n == 0 || n <= ring.Room() }

  /** What the next step pushes at once finds room: the flush, or a return of the hoard. */
  predicate RingReady(s: State) {
    match s.phase
    case Head => Takes(s.ring, |Sends(s)|)
    case Synced => true
    case Draining =>
      if s.visible == [] then s.rps == 0 ==> Takes(s.ring, |s.released|)
      else
        match DispatchOf(s, s.visible[0])
        case Response(Release) => Takes(s.ring, |s.released|)
        case Response(Reply(_)) => |s.released| + 1 == RELEASE_AT ==> Takes(s.ring, RELEASE_AT)
        case _ => true
  }

  /** The answers to the packet next in line fit, and the connection next in line gets an id. */
  predicate HandlerReady(s: State) {
    s.phase == Draining && s.visible != [] ==>
      match DispatchOf(s, s.visible[0])
      case Response(Reply(client)) => ReplyFits(s, client, s.visible[0])
      case Accept => s.visible[0].result > 0 ==> s.nextId < ID_LIMIT
      case _ => true
  }

  /** Some step of the loop is possible. */
  ghost predicate CanStep(s: State) { exists e: Event :: !IsKernel(e) && Enabled(s, e) }

  /** The loop's next step. */
  function Next(s: State): Event {
    match s.phase
    case Head => LoopTop(s.clock, s.date)
    case Synced => LoopWait
    case Draining => if s.visible == [] then LoopEnd else LoopDrain
  }

  /** The loop has one next step, and it is possible if and only if ring and handler are ready. */
  lemma NextStep(s: State)
    requires |s.date| == Response.DATE_LEN && s.ring.Room() >= 0 && (s.phase != Draining ==> s.visible == [])
    ensures Enabled(s, Next(s)) <==> RingReady(s) && HandlerReady(s)
    ensures forall e: Event :: !IsKernel(e) && Enabled(s, e) ==> Enabled(s, Next(s))
  {
    hide DispatchOf, ReplyFits, Sends;
  }

  /**
   In every reachable state the worker can take its next step if and only if what that step pushes at once
   finds room, the answers to the next packet fit, and the next connection gets an id.
   */
  lemma NextStepIff(ubdma: bool, cap: nat, es: seq<Event>, s: State)
    requires Guarantees.Reaches(ubdma, cap, es, s) && cap >= BUFFERS_COUNT + 16
    ensures CanStep(s) <==> RingReady(s) && HandlerReady(s)
  {
    hide Core, Guarantees.Reaches, Enabled, RingReady, HandlerReady;
    Guarantees.ReachesInv(ubdma, cap, es, s);
    RingWithinCapacity(ubdma, cap, es, s);
    CoreParts(s, Pending(s));
    NextStep(s);
  }

  // ----- a worker that stands still

  lemma SameDispatch(r: State, s: State, c: Cqe)
    requires r.ubdma == s.ubdma
    ensures DispatchOf(r, c) == DispatchOf(s, c)
  {
    hide Unpack;
  }

  /** What a kernel's step leaves alone, of all that the loop's next step looks at. */
  ghost predicate LoopSide(r: State, s: State) {
    && r.ubdma == s.ubdma && r.phase == s.phase && r.visible == s.visible && r.rps == s.rps && r.released == s.released
    && r.out == s.out && r.fds == s.fds && r.nextId == s.nextId && r.date == s.date && r.unflushed == s.unflushed
    && r.ring.Room() == s.ring.Room()
  }

  predicate SameBut(r: seq<seq<byte>>, s: seq<seq<byte>>, buf: nat) {
    |r| == |s| && forall b :: 0 <= b < |s| && b != buf ==> r[b] == s[b]
  }

  lemma KernelLeaves(s: State, e: Event)
    requires Inv(s) && Enabled(s, e) && IsKernel(e)
    ensures LoopSide(Step(s, e), s)
    ensures e.KernelReceives? ==> e.buf in s.free && SameBut(Step(s, e).buffers, s.buffers, e.buf)
    ensures !e.KernelReceives? ==> Step(s, e).buffers == s.buffers
  {
    hide Inv, CanComplete;
    if e.KernelReceives? { ReceiveKeeps(s, e.entry, e.buf, e.packet, e.low); }
  }

  /** The kernel writes no buffer that the next completion holds. */
  lemma NextBufferHeld(s: State, buf: nat)
    requires Inv(s) && s.visible != [] && buf in s.free
    requires DispatchOf(s, s.visible[0]).Response? && DispatchOf(s, s.visible[0]).action.Reply?
    ensures BufOf(s.visible[0].flags) != buf
  {
    hide Core, DispatchOf, IsData, BufOf, CqeOk;
    var c, q := s.visible[0], Pending(Pop(s));
    PendingHead(s);
    CoreParts(s, [c] + q);
    DropQueue(c, q, s.fdOf, s.ubdma);
    ReplyMeansData(s, c);
    FreeBuffer(s.free, s.released, [c] + q, buf);
    Consed(c, q, s.buffers);
    assert BufsOf([c] + q)[0] == BufOf(c.flags);
  }

  lemma SameFits(r: State, s: State, client: nat, c: Cqe)
    requires LoopSide(r, s) && |r.buffers| == |s.buffers|
    requires BufOf(c.flags) < |s.buffers| ==> r.buffers[BufOf(c.flags)] == s.buffers[BufOf(c.flags)]
    ensures ReplyFits(r, client, c) <==> ReplyFits(s, client, c)
  {
    hide BufOf, Answers, Response.Stream;
  }

  /** No step of the kernel makes the worker ready or keeps it from being ready. */
  lemma KernelKeepsReadiness(s: State, e: Event)
    requires Inv(s) && Enabled(s, e) && IsKernel(e)
    ensures RingReady(Step(s, e)) <==> RingReady(s)
    ensures HandlerReady(Step(s, e)) <==> HandlerReady(s)
  {
    hide Inv, Step, Enabled, DispatchOf, ReplyFits, SendsFrom, Ring.Room, BufOf;
    KernelLeaves(s, e);
    var r := Step(s, e);
    assert Sends(r) == Sends(s);
    if s.visible != [] {
      var c := s.visible[0];
      SameDispatch(r, s, c);
      match DispatchOf(s, c)
      case Response(Reply(client)) =>
        if e.KernelReceives? { NextBufferHeld(s, e.buf); }
        SameFits(r, s, client, c);
      case _ =>
    }
  }

  /** A worker that stands still does so forever, whatever the kernel does. */
  lemma {:induction false} StandsForever(s: State, es: seq<Event>)
    requires Inv(s) && Guarantees.Valid(s, es) && !(RingReady(s) && HandlerReady(s))
    ensures KernelSteps(es)
    ensures var r := Guarantees.Run(s, es);
      !(RingReady(r) && HandlerReady(r)) && r.out == s.out && r.handled == s.handled && r.ring.log == s.ring.log
    decreases |es|
  {
    hide Inv, Step, Enabled, RingReady, HandlerReady;
    if es != [] {
      NotReady(s, es[0]);
      StepKeeps(s, es[0]);
      KernelKeepsReadiness(s, es[0]);
      KernelAddsNothing(s, es[0]);
      StandsForever(Step(s, es[0]), es[1..]);
      assert forall i :: 0 < i < |es| ==> es[i] == es[1..][i - 1];
    }
  }

  /** Some run from here has another step of the loop in it. */
  ghost predicate EverSteps(s: State)
    requires Inv(s)
  {
    exists later: seq<Event> :: Guarantees.Valid(s, later) && !KernelSteps(later)
  }

  /** If the worker can ever take another step, it can take one now. */
  lemma NowOrNever(ubdma: bool, cap: nat, es: seq<Event>, s: State)
    requires Guarantees.Reaches(ubdma, cap, es, s) && cap >= BUFFERS_COUNT + 16
    ensures (Guarantees.ReachesInv(ubdma, cap, es, s); EverSteps(s) <==> CanStep(s))
  {
    hide Inv, Guarantees.Reaches, Guarantees.Run, Step, Enabled, RingReady, HandlerReady;
    Guarantees.ReachesInv(ubdma, cap, es, s);
    NextStepIff(ubdma, cap, es, s);
    if CanStep(s) {
      var e: Event :| !IsKernel(e) && Enabled(s, e);
      StepKeeps(s, e);
      assert [e][1..] == [] && !IsKernel([e][0]);
      assert Guarantees.Valid(s, [e]);
    } else {
      forall later: seq<Event> | Guarantees.Valid(s, later) ensures KernelSteps(later) {
        StandsForever(s, later);
      }
    }
  }

  lemma NotReady(s: State, e: Event)
    requires Enabled(s, e) && !(RingReady(s) && HandlerReady(s))
    ensures IsKernel(e)
  {
    hide DispatchOf, ReplyFits, Sends, CanReceive, CanComplete;
  }

  lemma KernelAddsNothing(s: State, e: Event)
    requires Inv(s) && Enabled(s, e) && IsKernel(e)
    ensures var r := Step(s, e); r.out == s.out && r.handled == s.handled && r.ring.log == s.ring.log
  {
    hide Inv, CanReceive, CanComplete;
  }
}
