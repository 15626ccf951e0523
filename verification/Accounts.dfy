/**
 Accounts of whole runs: what the steps push into the ring, and what that adds up to for every buffer, every
 connection, every client's output and the rates.
 */
module Accounts {
  import opened Bytes
  import opened ServerInternals
  import opened Machine
  import opened Invariants
  import opened Histories
  import opened Preserved
  import opened Runs
  import opened Effects
  import Response
  import Guarantees
  import Descriptors
  import Progress
  import Trim

  // ----- what a step pushes

  /** The step takes in a new connection. */
  predicate Accepting(s: State, e: Event) { e.LoopDrain? && s.visible != [] && Descriptors.Accepts(s.visible[0]) }

  /** The buffers a step hands back to the kernel. */
  function Handback(s: State, e: Event): seq<nat> {
    match e
    case LoopEnd => if s.rps == 0 then s.released else []
    case LoopDrain =>
      if s.visible == [] then []
      else
        (match DispatchOf(s, s.visible[0])
         case Response(Release) => s.released
         case Response(Reply(_)) => if |s.released| == 681 then s.released + [BufOf(s.visible[0].flags)] else []
         case _ => [])
    case _ => []
  }

  /** One provide entry a buffer, in order. */
  ghost predicate Provided(more: seq<Sqe>, ids: seq<nat>) {
    |more| == |ids| && forall i :: 0 <= i < |ids| ==> more[i] == Sqe(ProvideBuffer(ids[i]), 0xFAB)
  }

  /** The poll and the receive of a new connection, as far as they found room. */
  function Arming(s: State, fd: int): seq<Sqe> {
    (if s.ubdma && PollFits(s.ring) then [PollEntry(s.nextId, fd)] else [])
    + (if ReceiveFits(s.ring, s.ubdma) then [ReceiveEntry(s.nextId, fd)] else [])
  }

  predicate PollFits(q: Ring) { |q.log| - q.head < q.cap }

  /** In UBDMA mode the poll went first and the sync after it saw how far the kernel is. */
  predicate ReceiveFits(q: Ring, ubdma: bool) {
    if ubdma then |q.log| + (if PollFits(q) then 1 else 0) - q.consumed < q.cap else |q.log| - q.head < q.cap
  }

  /** All that a step appends to the ring's log, and the buffers that change hands with it. */
  ghost predicate Pushed(r: State, s: State, e: Event) {
    && |s.ring.log| <= |r.ring.log| && r.ring.log[..|s.ring.log|] == s.ring.log
    && var more := r.ring.log[|s.ring.log|..];
    && (if Accepting(s, e) then more == Arming(s, s.visible[0].result)
        else if e.LoopTop? then Flushes(more, s.out, s.fds, RESERVED)
        else Provided(more, Handback(s, e)))
    && r.free == s.free + (set b | b in Handback(s, e)) - (if e.KernelReceives? then {e.buf} else {})
    && (Handback(s, e) != [] ==> r.ring.consumed == |r.ring.log|)
  }

  lemma NoneBack(free: set<nat>, ids: seq<nat>)
    requires ids == []
    ensures free + (set b | b in ids) == free
  {
  }

  lemma NothingPushed(r: State, s: State, e: Event)
    requires r.ring.log == s.ring.log && r.free == s.free && !e.KernelReceives?
    requires !Accepting(s, e) && !e.LoopTop? && Handback(s, e) == []
    ensures Pushed(r, s, e)
  {
    hide DispatchOf;
    assert s.ring.log[..|s.ring.log|] == s.ring.log && s.ring.log[|s.ring.log|..] == [];
    NoneBack(s.free, Handback(s, e));
  }

  lemma HandsBack(s0: State, s: State, e: Event)
    requires s0.ring.log == s.ring.log && s0.free == s.free && s0.released == Handback(s, e)
    requires !Accepting(s, e) && !e.LoopTop? && !e.KernelReceives?
    ensures Pushed(ReleaseBuffers(s0), s, e)
  {
    hide DispatchOf, Handback, Accepting;
    ReleaseEntries(s0);
    if s0.released == [] {
      NothingPushed(s0, s, e);
    } else {
      FreedBy(s0);
    }
  }

  lemma FreedBy(s: State)
    ensures s.released != [] ==> ReleaseBuffers(s).free == s.free + (set b | b in s.released)
  {
    hide Returned;
  }

  lemma AcceptPushed(s: State, fd: int)
    requires s.visible != [] && fd > 0 && s.visible[0].result == fd && Accepting(s, LoopDrain) && Handback(s, LoopDrain) == []
    ensures Pushed(ProcessEntryAccept(Pop(s), fd), s, LoopDrain)
  {
    hide Handback, Accepting, Tag;
    AcceptEntries(Pop(s), fd);
    var r := ProcessEntryAccept(Pop(s), fd);
    AcceptFree(Pop(s), fd);
    assert r.ring.log == s.ring.log + Arming(s, fd);
    NoneBack(s.free, Handback(s, LoopDrain));
  }

  lemma AcceptFree(s: State, fd: int)
    ensures ProcessEntryAccept(s, fd).free == s.free
  {
    hide Armed;
  }

  lemma PollFree(s: State, client: nat)
    requires s.lastBuf.Some? ==> s.lastBuf.value < |s.buffers|
    ensures Ubdma(s, client).free == s.free
  {
    hide Answers, Response.Stream;
  }

  lemma ReplyPushed(s: State, client: nat, flags: nat, result: nat)
    requires Addressable(s, client, flags, result) && result <= BUFFER_SIZE
    ensures var r, s1 := RequestReply(s, flags, client, result), Reply1(s, flags, client, result);
      && s1.ring.log == s.ring.log && s1.free == s.free && s1.released == s.released + [BufOf(flags)]
      && r == (if |s.released| == 681 then ReleaseBuffers(s1) else s1)
  {
    hide Answers, Response.Stream, AfterReply, BufOf, ReleaseBuffers;
  }

  lemma DrainPushed(s: State)
    requires Inv(s) && CanDrain(s)
    ensures Safe(Pop(s), s.visible[0]) && Pushed(Drain(s), s, LoopDrain)
  {
    hide Core, CanProcess, ProcessEntryAccept, CloseConnection, Ubdma, RequestReply, ReleaseBuffers, DispatchOf, Pushed, Addressable, BufOf, CqeOk, IsData;
    DrainKeeps(s);
    var c, s1, q := s.visible[0], Pop(s), Pending(Pop(s));
    PendingHead(s);
    SameDispatch(s, c);
    Descriptors.DispatchFacts(s, c, q);
    Accepts0(s, c);
    match DispatchOf(s, c)
    case Accept =>
      if c.result > 0 { AcceptPushed(s, c.result); } else { AcceptNothing(s1, c.result); NothingPushed(s1, s, LoopDrain); }
    case Response(Release) => HandsBack(s1, s, LoopDrain);
    case Response(Close(client)) => CloseFree(s1, client); NothingPushed(CloseConnection(s1, client), s, LoopDrain);
    case Response(Poll(client)) =>
      Descriptors.PollRing(s1, client);
      PollFree(s1, client);
      NothingPushed(Ubdma(s1, client), s, LoopDrain);
    case Response(Reply(client)) =>
      CoreParts(s, [c] + q);
      DropQueue(c, q, s.fdOf, s.ubdma);
      ReplyMeansData(s, c);
      Progress.NotNegative(s1, client, c.flags, c.result);
      ReplyPushed(s1, client, c.flags, c.result);
      var s2 := Reply1(s1, c.flags, client, c.result);
      if |s.released| == 681 { HandsBack(s2, s, LoopDrain); } else { NothingPushed(s2, s, LoopDrain); }
    case _ => NothingPushed(s1, s, LoopDrain);
  }

  lemma Accepts0(s: State, c: Cqe)
    requires s.visible != [] && c == s.visible[0]
    ensures Accepting(s, LoopDrain) <==> Descriptors.Accepts(c)
  {
  }

  lemma CloseFree(s: State, client: nat)
    ensures CloseConnection(s, client).free == s.free && CloseConnection(s, client).ring == s.ring
  {
  }

  lemma TopPushed(s: State, clock: int, date: seq<byte>)
    requires Inv(s) && s.phase == Head
    ensures Pushed(Top(s, clock, date), s, LoopTop(clock, date))
  {
    hide Inv, Flushes, Top;
    TopEffect(s, clock, date);
    TopFree(s, clock, date);
    NoneBack(s.free, []);
  }

  lemma TopFree(s: State, clock: int, date: seq<byte>)
    ensures Top(s, clock, date).free == s.free
  {
    hide SendsFrom, Emptied, Settled;
    if clock == s.clock { assert Metrics(s, clock, date) == s; }
  }

  /** What every step pushes. */
  lemma StepPushed(s: State, e: Event)
    requires Inv(s) && Enabled(s, e)
    ensures Pushed(Step(s, e), s, e)
  {
    hide Inv, CanDrain, CanReceive, CanComplete, Top, Wait, Drain, Pushed, Handback;
    match e
    case KernelReceives(entry, buf, packet, low) => ReceivePushed(s, entry, buf, packet, low);
    case LoopTop(clock, date) => TopPushed(s, clock, date);
    case LoopWait => WaitPushed(s);
    case LoopDrain => DrainPushed(s);
    case LoopEnd => EndPushed(s);
    case _ => KernelHandback(s, e); NothingPushed(Step(s, e), s, e);
  }

  lemma KernelHandback(s: State, e: Event)
    requires IsKernel(e) || e.LoopWait?
    ensures Handback(s, e) == [] && !Accepting(s, e)
  {
  }

  lemma ReceivePushed(s: State, entry: nat, buf: nat, packet: seq<byte>, low: nat)
    requires Inv(s) && CanReceive(s, entry, buf, packet, low)
    ensures Pushed(Step(s, KernelReceives(entry, buf, packet, low)), s, KernelReceives(entry, buf, packet, low))
  {
    hide Inv;
    ReceiveKeeps(s, entry, buf, packet, low);
    hide CanReceive, Enabled;
    assert s.ring.log[..|s.ring.log|] == s.ring.log && s.ring.log[|s.ring.log|..] == [];
    NoneBack(s.free, []);
  }

  lemma WaitPushed(s: State)
    ensures Pushed(Wait(s), s, LoopWait)
  {
    hide DispatchOf;
    assert s.ring.log[..|s.ring.log|] == s.ring.log && s.ring.log[|s.ring.log|..] == [];
    NoneBack(s.free, []);
  }

  lemma EndPushed(s: State)
    ensures Pushed(End(s), s, LoopEnd)
  {
    hide ReleaseBuffers, Pushed;
    if s.rps == 0 {
      HandsBack(s, s, LoopEnd);
      PhasePushed(ReleaseBuffers(s), s, Head);
    } else {
      NothingPushed(s, s, LoopEnd);
      PhasePushed(s, s, Head);
    }
  }

  lemma PhasePushed(r: State, s: State, phase: Phase)
    requires Pushed(r, s, LoopEnd)
    ensures Pushed(r.(phase := phase), s, LoopEnd)
  {
  }

  // ----- what set-up pushed stays, and no accept is pushed again

  lemma PushedNoAccept(r: State, s: State, e: Event, i: nat)
    requires Pushed(r, s, e) && |s.ring.log| <= i < |r.ring.log|
    ensures !r.ring.log[i].op.AcceptMulti?
  {
    hide Handback, Accepting, Tag, DispatchOf, Descriptors.EntryClient;
    var more := r.ring.log[|s.ring.log|..];
    assert r.ring.log[i] == more[i - |s.ring.log|] && r.ring.log[i] in more;
  }

  lemma {:induction false} RunLog(s: State, es: seq<Event>)
    requires Inv(s) && Guarantees.Valid(s, es)
    ensures var r := Guarantees.Run(s, es);
      && |s.ring.log| <= |r.ring.log| && r.ring.log[..|s.ring.log|] == s.ring.log
      && forall i :: |s.ring.log| <= i < |r.ring.log| ==> !r.ring.log[i].op.AcceptMulti?
    decreases |es|
  {
    hide Inv, Step, Enabled, Pushed;
    if es != [] {
      var s1 := Step(s, es[0]);
      StepKeeps(s, es[0]);
      StepPushed(s, es[0]);
      PushedPrefix(s1, s, es[0]);
      RunLog(s1, es[1..]);
      var r := Guarantees.Run(s, es);
      assert r.ring.log[..|s.ring.log|] == r.ring.log[..|s1.ring.log|][..|s.ring.log|];
      forall i | |s.ring.log| <= i < |r.ring.log| ensures !r.ring.log[i].op.AcceptMulti? {
        if i < |s1.ring.log| {
          PushedNoAccept(s1, s, es[0], i);
          assert r.ring.log[i] == r.ring.log[..|s1.ring.log|][i] == s1.ring.log[i];
        }
      }
    }
  }

  lemma PushedPrefix(r: State, s: State, e: Event)
    requires Pushed(r, s, e)
    ensures |s.ring.log| <= |r.ring.log| && r.ring.log[..|s.ring.log|] == s.ring.log
  {
    hide Handback, Accepting;
  }

  /** The log begins with an offer of each of the 1024 buffers and sixteen multi-accepts, and there is no other multi-accept. */
  lemma SetupLog(ubdma: bool, cap: nat, es: seq<Event>, s: State)
    requires Guarantees.Reaches(ubdma, cap, es, s)
    ensures |s.ring.log| >= 1040
    ensures forall i :: 0 <= i < 1024 ==> s.ring.log[i] == Sqe(ProvideBuffer(i), 0xFAB)
    ensures forall i :: 1024 <= i < |s.ring.log| ==> (s.ring.log[i] == Sqe(AcceptMulti, 0xA) <==> i < 1040)
  {
    hide Inv, Guarantees.Valid, Guarantees.Run, ReserveWrites, BlankBuffers, Below;
    Guarantees.InitialInv(ubdma, cap);
    var start := Initial(ubdma, cap);
    RunLog(start, es);
    assert |start.ring.log| == 1040;
    forall i | 0 <= i < 1040 ensures s.ring.log[i] == SetupEntries()[i] {
      assert s.ring.log[i] == s.ring.log[..1040][i];
    }
  }

  // ----- buffers

  /** How many entries satisfy a predicate. */
  function Tally(sq: seq<Sqe>, p: Sqe -> bool): nat {
    if sq == [] then 0 else Tally(sq[..|sq| - 1], p) + (if p(sq[|sq| - 1]) then 1 else 0)
  }

  lemma {:induction false} TallyConcat(a: seq<Sqe>, b: seq<Sqe>, p: Sqe -> bool)
    ensures Tally(a + b, p) == Tally(a, p) + Tally(b, p)
    decreases |b|
  {
    if b == [] {
      assert a + b == a;
    } else {
      var front := b[..|b| - 1];
      assert (a + b)[..|a + b| - 1] == a + front;
      TallyConcat(a, front, p);
    }
  }

  lemma {:induction false} TallyNone(sq: seq<Sqe>, p: Sqe -> bool)
    requires forall i :: 0 <= i < |sq| ==> !p(sq[i])
    ensures Tally(sq, p) == 0
  {
    if sq != [] { TallyNone(sq[..|sq| - 1], p); }
  }

  /** How often a buffer is offered to the kernel. */
  function Given(sq: seq<Sqe>, b: nat): nat { Tally(sq, (e: Sqe) => e.op == ProvideBuffer(b)) }

  /** How many packets the kernel received into a buffer. */
  function Receipts(es: seq<Event>, b: nat): nat {
    if es == [] then 0 else (if es[0].KernelReceives? && es[0].buf == b then 1 else 0) + Receipts(es[1..], b)
  }

  lemma GivenConcat(a: seq<Sqe>, b: seq<Sqe>, buf: nat)
    ensures Given(a + b, buf) == Given(a, buf) + Given(b, buf)
  {
    TallyConcat(a, b, (e: Sqe) => e.op == ProvideBuffer(buf));
  }

  lemma GivenNone(sq: seq<Sqe>, buf: nat)
    requires forall i :: 0 <= i < |sq| ==> !sq[i].op.ProvideBuffer?
    ensures Given(sq, buf) == 0
  {
    TallyNone(sq, (e: Sqe) => e.op == ProvideBuffer(buf));
  }

  /** Offering each of some distinct buffers once. */
  lemma {:induction false} GivenOnce(more: seq<Sqe>, ids: seq<nat>, buf: nat)
    requires Provided(more, ids) && NoDup(ids)
    ensures Given(more, buf) == if buf in ids then 1 else 0
    decreases |ids|
  {
    if ids != [] {
      var n := |ids| - 1;
      GivenOnce(more[..n], ids[..n], buf);
      assert ids == ids[..n] + [ids[n]];
    }
  }

  /** Offers of the log not matched by a free buffer. */
  function Owe(s: State, b: nat): int { Given(s.ring.log, b) - (if b in s.free then 1 else 0) }

  ghost predicate OffersTaken(ring: Ring) {
    forall i :: ring.consumed <= i < |ring.log| ==> !ring.log[i].op.ProvideBuffer?
  }

  /** The buffers handed back are distinct and were not with the kernel. */
  lemma HandbackSound(s: State, e: Event)
    requires Inv(s) && Enabled(s, e)
    ensures NoDup(Handback(s, e)) && forall b :: b in Handback(s, e) ==> b !in s.free
  {
    hide Core, DispatchOf, IsData, BufOf, CqeOk, CanProcess, CanReceive, CanComplete;
    CoreParts(s, Pending(s));
    HoardSound(s.free, s.released, Pending(s));
    if e.LoopDrain? {
      var c, q := s.visible[0], Pending(Pop(s));
      PendingHead(s);
      DropQueue(c, q, s.fdOf, s.ubdma);
      if DispatchOf(s, c).Response? && DispatchOf(s, c).action.Reply? {
        ReplyMeansData(s, c);
        ReplyPool(c, q, s.free, s.released);
        HoardSound(s.free, s.released + [BufOf(c.flags)], q);
      }
    }
  }

  lemma HoardSound(free: set<nat>, released: seq<nat>, q: seq<Cqe>)
    requires Pool(free, released, q)
    ensures NoDup(released) && forall b :: b in released ==> b !in free
  {
    var bufs := BufsOf(q);
    hide BufsOf;
    var held := released + bufs;
    forall i, j | 0 <= i < j < |released| ensures released[i] != released[j] {
      assert held[i] == released[i] && held[j] == released[j];
    }
    forall b | b in released ensures b !in free {
      InEither(released, bufs, b);
    }
  }

  lemma StepOwes(s: State, e: Event, b: nat)
    requires Inv(s) && Enabled(s, e) && OffersTaken(s.ring)
    ensures Owe(Step(s, e), b) == Owe(s, b) + (if e.KernelReceives? && e.buf == b then 1 else 0)
    ensures OffersTaken(Step(s, e).ring)
  {
    hide Inv, Step, Enabled, Pushed, OffersTaken, Handback, Descriptors.OnConnection, Descriptors.EntryClient;
    var r := Step(s, e);
    StepPushed(s, e);
    HandbackSound(s, e);
    ReceivesFree(s, e);
    Descriptors.StepRing(s, e);
    PushedOwes(r, s, e, b);
    PushedTaken(r, s, e);
  }

  lemma ReceivesFree(s: State, e: Event)
    requires Inv(s) && Enabled(s, e)
    ensures e.KernelReceives? ==> e.buf in s.free && Handback(s, e) == []
  {
    hide Inv, CanDrain, CanComplete;
  }

  lemma PushedOwes(r: State, s: State, e: Event, b: nat)
    requires Pushed(r, s, e) && NoDup(Handback(s, e)) && forall x :: x in Handback(s, e) ==> x !in s.free
    requires e.KernelReceives? ==> e.buf in s.free && Handback(s, e) == []
    ensures Owe(r, b) == Owe(s, b) + (if e.KernelReceives? && e.buf == b then 1 else 0)
  {
    PushedGiven(r, s, e, b);
    hide Handback, Accepting, Arming, Flushes, Given;
    var more := r.ring.log[|s.ring.log|..];
    assert r.ring.log == s.ring.log + more;
    GivenConcat(s.ring.log, more, b);
  }

  lemma PushedGiven(r: State, s: State, e: Event, b: nat)
    requires Pushed(r, s, e) && NoDup(Handback(s, e))
    ensures Given(r.ring.log[|s.ring.log|..], b) == if b in Handback(s, e) then 1 else 0
  {
    OtherHandback(s, e);
    hide Handback, Accepting, Tag, Descriptors.EntryClient, PollFits, ReceiveFits, SentFor;
    var more := r.ring.log[|s.ring.log|..];
    if Accepting(s, e) || e.LoopTop? {
      forall i | 0 <= i < |more| ensures !more[i].op.ProvideBuffer? { assert more[i] in more; }
      GivenNone(more, b);
    } else {
      GivenOnce(more, Handback(s, e), b);
    }
  }

  lemma OtherHandback(s: State, e: Event)
    ensures Accepting(s, e) || e.LoopTop? ==> Handback(s, e) == []
  {
  }

  lemma PushedTaken(r: State, s: State, e: Event)
    requires Pushed(r, s, e) && OffersTaken(s.ring) && s.ring.consumed <= r.ring.consumed
    ensures OffersTaken(r.ring)
  {
    hide Handback, Accepting, Tag, DispatchOf, Descriptors.EntryClient, PollFits, ReceiveFits;
    forall i | r.ring.consumed <= i < |r.ring.log| ensures !r.ring.log[i].op.ProvideBuffer? {
      if i < |s.ring.log| {
        assert r.ring.log[i] == r.ring.log[..|s.ring.log|][i] == s.ring.log[i];
      } else {
        var more := r.ring.log[|s.ring.log|..];
        assert r.ring.log[i] == more[i - |s.ring.log|] && r.ring.log[i] in more;
      }
    }
  }

  lemma {:induction false} RunOwes(s: State, es: seq<Event>, b: nat)
    requires Inv(s) && Guarantees.Valid(s, es) && OffersTaken(s.ring)
    ensures Owe(Guarantees.Run(s, es), b) == Owe(s, b) + Receipts(es, b)
    ensures OffersTaken(Guarantees.Run(s, es).ring)
    decreases |es|
  {
    hide Inv, Step, Enabled, OffersTaken, Owe;
    if es != [] {
      StepKeeps(s, es[0]);
      StepOwes(s, es[0], b);
      RunOwes(Step(s, es[0]), es[1..], b);
    }
  }

  /**
   Every buffer balances over every run: the offers of it that the kernel has taken are the packets received
   into it, and one more while it is free.
   */
  lemma BuffersBalance(ubdma: bool, cap: nat, es: seq<Event>, s: State, b: nat)
    requires Guarantees.Reaches(ubdma, cap, es, s) && b < BUFFERS_COUNT
    ensures s.ring.consumed <= |s.ring.log|
    ensures Given(s.ring.log[..s.ring.consumed], b) == Receipts(es, b) + (if b in s.free then 1 else 0)
  {
    hide Core, Guarantees.Valid, Guarantees.Run, SetupEntries, ReserveWrites, BlankBuffers, Below, Given, Receipts;
    Guarantees.InitialInv(ubdma, cap);
    Guarantees.ReachesInv(ubdma, cap, es, s);
    CoreParts(s, Pending(s));
    SetupOffers(b);
    var start := Initial(ubdma, cap);
    assert OffersTaken(start.ring);
    RunOwes(start, es, b);
    var taken, rest := s.ring.log[..s.ring.consumed], s.ring.log[s.ring.consumed..];
    assert s.ring.log == taken + rest;
    GivenConcat(taken, rest, b);
    GivenNone(rest, b);
  }

  lemma {:induction false} SetupOffers(b: nat)
    requires b < BUFFERS_COUNT
    ensures Given(SetupEntries(), b) == 1 && b in Below(BUFFERS_COUNT)
  {
    hide Below;
    var sq := SetupEntries();
    var offers, accepts, ids := sq[..BUFFERS_COUNT], sq[BUFFERS_COUNT..], Count(BUFFERS_COUNT);
    assert sq == offers + accepts;
    GivenConcat(offers, accepts, b);
    GivenNone(accepts, b);
    GivenOnce(offers, ids, b);
    Counted(BUFFERS_COUNT, b);
  }

  // ----- connections

  /** How many receives, and how many polls, were pushed for a client. */
  function Receives(sq: seq<Sqe>, id: nat): nat {
    Tally(sq, (e: Sqe) => e.op.RecvMulti? && Descriptors.EntryClient(e) == id)
  }

  function Polls(sq: seq<Sqe>, id: nat): nat {
    Tally(sq, (e: Sqe) => e.op.PollAdd? && Descriptors.EntryClient(e) == id)
  }

  /** The clients whose poll, or whose receive, found no room. */
  datatype Lost = Lost(polls: set<nat>, receives: set<nat>)

  /** What a step adds to them. */
  function Losing(s: State, e: Event, lost: Lost): Lost {
    if Accepting(s, e) then
      Lost(if s.ubdma && !PollFits(s.ring) then lost.polls + {s.nextId} else lost.polls,
           if !ReceiveFits(s.ring, s.ubdma) then lost.receives + {s.nextId} else lost.receives)
    else lost
  }

  ghost function LostIn(s: State, es: seq<Event>, lost: Lost): Lost
    requires Inv(s) && Guarantees.Valid(s, es)
    decreases |es|
  {
    if es == [] then lost else StepKeeps(s, es[0]); LostIn(Step(s, es[0]), es[1..], Losing(s, es[0], lost))
  }

  /** Every accepted client has one receive and, in UBDMA mode, one poll, unless it was lost; nobody else has any. */
  ghost predicate ArmedOnce(s: State, lost: Lost) {
    && (forall id :: RESERVED <= id < s.nextId ==> Receives(s.ring.log, id) == if id in lost.receives then 0 else 1)
    && (forall id :: RESERVED <= id < s.nextId ==> Polls(s.ring.log, id) == if s.ubdma && id !in lost.polls then 1 else 0)
    && (forall id: nat :: s.nextId <= id < ID_LIMIT ==> Receives(s.ring.log, id) == 0 && Polls(s.ring.log, id) == 0)
    && (forall id :: id in lost.polls || id in lost.receives ==> id < s.nextId)
  }

  lemma ArmingCounts(s: State, fd: int, id: nat)
    requires 1 <= s.nextId < ID_LIMIT
    ensures Receives(Arming(s, fd), id) == if id == s.nextId && ReceiveFits(s.ring, s.ubdma) then 1 else 0
    ensures Polls(Arming(s, fd), id) == if id == s.nextId && s.ubdma && PollFits(s.ring) then 1 else 0
  {
    hide Tag, Descriptors.EntryClient, PollFits, ReceiveFits;
    Descriptors.TagClient(s.nextId, POLL_EVENT, PollEntry(s.nextId, fd));
    Descriptors.TagClient(s.nextId, INIT_REQUEST, ReceiveEntry(s.nextId, fd));
    var polls := if s.ubdma && PollFits(s.ring) then [PollEntry(s.nextId, fd)] else [];
    var receives := if ReceiveFits(s.ring, s.ubdma) then [ReceiveEntry(s.nextId, fd)] else [];
    var isReceive, isPoll := (e: Sqe) => e.op.RecvMulti? && Descriptors.EntryClient(e) == id, (e: Sqe) => e.op.PollAdd? && Descriptors.EntryClient(e) == id;
    TallyConcat(polls, receives, isReceive);
    TallyConcat(polls, receives, isPoll);
    TallyOne(PollEntry(s.nextId, fd), isReceive);
    TallyOne(PollEntry(s.nextId, fd), isPoll);
    TallyOne(ReceiveEntry(s.nextId, fd), isReceive);
    TallyOne(ReceiveEntry(s.nextId, fd), isPoll);
  }

  lemma TallyOne(e: Sqe, p: Sqe -> bool)
    ensures Tally([e], p) == (if p(e) then 1 else 0) && Tally([], p) == 0
  {
    assert [e][..0] == [];
  }

  /** What a step pushes counts for a new client only. */
  lemma PushedCounts(r: State, s: State, e: Event, id: nat)
    requires Pushed(r, s, e) && (Accepting(s, e) ==> 1 <= s.nextId < ID_LIMIT)
    ensures var joins := Accepting(s, e) && id == s.nextId;
      && Receives(r.ring.log, id) == Receives(s.ring.log, id) + (if joins && ReceiveFits(s.ring, s.ubdma) then 1 else 0)
      && Polls(r.ring.log, id) == Polls(s.ring.log, id) + (if joins && s.ubdma && PollFits(s.ring) then 1 else 0)
  {
    hide Handback, Descriptors.Accepts, Tag, Descriptors.EntryClient, PollFits, ReceiveFits, SentFor, Arming, Tally;
    var more := r.ring.log[|s.ring.log|..];
    assert r.ring.log == s.ring.log + more;
    TallyConcat(s.ring.log, more, (e: Sqe) => e.op.RecvMulti? && Descriptors.EntryClient(e) == id);
    TallyConcat(s.ring.log, more, (e: Sqe) => e.op.PollAdd? && Descriptors.EntryClient(e) == id);
    if Accepting(s, e) {
      ArmingCounts(s, s.visible[0].result, id);
    } else {
      forall i | 0 <= i < |more| ensures !more[i].op.RecvMulti? && !more[i].op.PollAdd? { assert more[i] in more; }
      TallyNone(more, (e: Sqe) => e.op.RecvMulti? && Descriptors.EntryClient(e) == id);
      TallyNone(more, (e: Sqe) => e.op.PollAdd? && Descriptors.EntryClient(e) == id);
    }
  }

  // ----- what steps leave alone

  /** The published rate, the clock and the next id stay. */
  ghost predicate Steady(r: State, s: State) {
    r.rps == s.rps && r.published == s.published && r.clock == s.clock && r.nextId == s.nextId && r.ubdma == s.ubdma
  }

  lemma ReleaseSteady(s: State)
    ensures Steady(ReleaseBuffers(s), s)
  {
    hide Returned;
  }

  lemma PollSteady(s: State, client: nat)
    requires s.lastBuf.Some? ==> s.lastBuf.value < |s.buffers|
    ensures Steady(Ubdma(s, client), s)
  {
    hide Answers, Response.Stream;
  }

  lemma CloseSteady(s: State, client: nat)
    ensures Steady(CloseConnection(s, client), s)
  {
  }

  lemma AcceptSteady(s: State, fd: int)
    ensures var r := ProcessEntryAccept(s, fd);
      r.rps == s.rps && r.published == s.published && r.clock == s.clock && r.ubdma == s.ubdma
      && r.nextId == s.nextId + if fd > 0 then 1 else 0
  {
    hide Armed;
  }

  lemma ReplySteady(s: State, client: nat, flags: nat, result: nat)
    requires Addressable(s, client, flags, result) && result <= BUFFER_SIZE
    ensures Steady(RequestReply(s, flags, client, result), s)
  {
    hide ReleaseBuffers;
    ReplySteady1(s, client, flags, result);
    ReleaseSteady(Reply1(s, flags, client, result));
    hide Reply1;
  }

  lemma ReplySteady1(s: State, client: nat, flags: nat, result: nat)
    requires Addressable(s, client, flags, result)
    ensures Steady(Reply1(s, flags, client, result), s)
  {
    hide Answers, Response.Stream, AfterReply, BufOf;
  }

  lemma DrainSteady(s: State)
    requires Inv(s) && CanDrain(s)
    ensures Safe(Pop(s), s.visible[0])
    ensures var r := Drain(s);
      r.rps == s.rps && r.published == s.published && r.clock == s.clock && r.ubdma == s.ubdma
      && r.nextId == s.nextId + if Accepting(s, LoopDrain) then 1 else 0
  {
    hide Core, CanProcess, ProcessEntryAccept, CloseConnection, Ubdma, RequestReply, ReleaseBuffers, DispatchOf, Addressable, BufOf, CqeOk, IsData;
    DrainKeeps(s);
    var c, s1, q := s.visible[0], Pop(s), Pending(Pop(s));
    PendingHead(s);
    SameDispatch(s, c);
    Descriptors.DispatchFacts(s, c, q);
    Accepts0(s, c);
    match DispatchOf(s, c)
    case Accept => AcceptSteady(s1, c.result);
    case Response(Release) => ReleaseSteady(s1);
    case Response(Close(client)) => CloseSteady(s1, client);
    case Response(Poll(client)) => PollSteady(s1, client);
    case Response(Reply(client)) =>
      CoreParts(s, [c] + q);
      DropQueue(c, q, s.fdOf, s.ubdma);
      ReplyMeansData(s, c);
      Progress.NotNegative(s1, client, c.flags, c.result);
      ReplySteady(s1, client, c.flags, c.result);
    case _ =>
  }

  lemma TopNext(s: State, clock: int, date: seq<byte>)
    ensures Top(s, clock, date).nextId == s.nextId && Top(s, clock, date).ubdma == s.ubdma
  {
    hide SendsFrom, Emptied, Settled;
    if clock == s.clock { assert Metrics(s, clock, date) == s; }
  }

  lemma EndSteady(s: State)
    ensures Steady(End(s), s)
  {
    hide ReleaseBuffers;
    ReleaseSteady(s);
  }

  /** Only an accept uses an id, and only the loop's top publishes. */
  lemma StepSteady(s: State, e: Event)
    requires Inv(s) && Enabled(s, e)
    ensures var r := Step(s, e);
      && r.nextId == s.nextId + (if Accepting(s, e) then 1 else 0) && r.ubdma == s.ubdma
      && if e.LoopTop? then Topped(r, s, e.clock, e.date)
         else r.rps == s.rps && r.published == s.published && r.clock == s.clock
  {
    hide Inv, CanDrain, CanReceive, CanComplete, Top, Drain, End, Topped, Receive;
    match e
    case LoopTop(clock, date) => TopEffect(s, clock, date); TopNext(s, clock, date);
    case LoopDrain => DrainSteady(s);
    case LoopEnd => EndSteady(s);
    case KernelReceives(entry, buf, packet, low) => ReceiveSteady(s, entry, buf, packet, low);
    case _ =>
  }

  lemma ReceiveSteady(s: State, entry: nat, buf: nat, packet: seq<byte>, low: nat)
    requires Inv(s) && CanReceive(s, entry, buf, packet, low)
    ensures buf < |s.buffers| && |packet| <= |s.buffers[buf]| && Steady(Receive(s, entry, buf, packet, low), s)
  {
    hide Inv;
    ReceiveKeeps(s, entry, buf, packet, low);
  }

  // ----- connections over runs

  lemma StepArms(s: State, e: Event, lost: Lost)
    requires Inv(s) && Enabled(s, e) && ArmedOnce(s, lost)
    ensures ArmedOnce(Step(s, e), Losing(s, e, lost))
  {
    hide Inv, Step, Enabled, Pushed, Accepting, PollFits, ReceiveFits, Receives, Polls, Topped;
    StepPushed(s, e);
    StepSteady(s, e);
    IdsLeft(s, e);
    var r, lost' := Step(s, e), Losing(s, e, lost);
    forall id: nat | id < ID_LIMIT
      ensures var joins := Accepting(s, e) && id == s.nextId;
        && Receives(r.ring.log, id) == Receives(s.ring.log, id) + (if joins && ReceiveFits(s.ring, s.ubdma) then 1 else 0)
        && Polls(r.ring.log, id) == Polls(s.ring.log, id) + (if joins && s.ubdma && PollFits(s.ring) then 1 else 0)
    {
      PushedCounts(r, s, e, id);
    }
  }

  lemma IdsLeft(s: State, e: Event)
    requires Inv(s) && Enabled(s, e)
    ensures RESERVED <= s.nextId <= ID_LIMIT
    ensures Accepting(s, e) ==> s.nextId < ID_LIMIT
  {
    hide Core, CanReceive, CanComplete, ReplyFits;
    CoreParts(s, Pending(s));
  }

  lemma {:induction false} RunArms(s: State, es: seq<Event>, lost: Lost)
    requires Inv(s) && Guarantees.Valid(s, es) && ArmedOnce(s, lost)
    ensures ArmedOnce(Guarantees.Run(s, es), LostIn(s, es, lost))
    decreases |es|
  {
    hide Inv, Step, Enabled, ArmedOnce, Losing;
    if es != [] {
      StepKeeps(s, es[0]);
      StepArms(s, es[0], lost);
      RunArms(Step(s, es[0]), es[1..], Losing(s, es[0], lost));
    }
  }

  /**
   Over every run each accepted client has exactly one receive in the log, and exactly one poll if and only if the
   worker is in UBDMA mode, but for those that found no room when it was accepted.
   */
  lemma ConnectionsArmedOnce(ubdma: bool, cap: nat, es: seq<Event>, s: State)
    requires Guarantees.Reaches(ubdma, cap, es, s)
    ensures (Guarantees.InitialInv(ubdma, cap); ArmedOnce(s, LostIn(Initial(ubdma, cap), es, Lost({}, {}))))
  {
    hide Inv, Guarantees.Valid, Guarantees.Run, ReserveWrites, BlankBuffers, Below, SetupEntries, LostIn, Tally;
    Guarantees.InitialInv(ubdma, cap);
    var start := Initial(ubdma, cap);
    forall id: nat ensures Receives(start.ring.log, id) == 0 && Polls(start.ring.log, id) == 0 {
      TallyNone(start.ring.log, (e: Sqe) => e.op.RecvMulti? && Descriptors.EntryClient(e) == id);
      TallyNone(start.ring.log, (e: Sqe) => e.op.PollAdd? && Descriptors.EntryClient(e) == id);
    }
    assert ArmedOnce(start, Lost({}, {}));
    RunArms(start, es, Lost({}, {}));
  }

  // ----- rates

  /** The requests served up to the last publication but one, and up to the last. */
  datatype Marks = Marks(before: nat, last: nat)

  function Marking(s: State, e: Event, m: Marks): Marks {
    if e.LoopTop? && e.clock != s.clock then Marks(m.last, s.served) else m
  }

  ghost function MarksIn(s: State, es: seq<Event>, m: Marks): Marks
    requires Inv(s) && Guarantees.Valid(s, es)
    decreases |es|
  {
    if es == [] then m else StepKeeps(s, es[0]); MarksIn(Step(s, es[0]), es[1..], Marking(s, es[0], m))
  }

  /** The rate on display is the number of requests served between the last two publications. */
  ghost predicate Rated(s: State, m: Marks) { s.published == m.last && s.rps + m.before == m.last }

  lemma StepRates(s: State, e: Event, m: Marks)
    requires Inv(s) && Enabled(s, e) && Rated(s, m)
    ensures Rated(Step(s, e), Marking(s, e, m))
    ensures e.LoopTop? && e.clock != s.clock ==> Step(s, e).rps == Step(s, e).published - s.published
    ensures !(e.LoopTop? && e.clock != s.clock) ==> Step(s, e).rps == s.rps
  {
    hide Core, Step, Enabled, Flushes;
    CoreParts(s, Pending(s));
    StepSteady(s, e);
  }

  lemma {:induction false} RunRates(s: State, es: seq<Event>, m: Marks)
    requires Inv(s) && Guarantees.Valid(s, es) && Rated(s, m)
    ensures Rated(Guarantees.Run(s, es), MarksIn(s, es, m))
    decreases |es|
  {
    hide Inv, Step, Enabled, Rated, Marking;
    if es != [] {
      StepKeeps(s, es[0]);
      StepRates(s, es[0], m);
      RunRates(Step(s, es[0]), es[1..], Marking(s, es[0], m));
    }
  }

  /**
   In every run the rate on display is the number of requests served between the last two publications, and a
   turn's end returns the hoard if and only if that number is zero.
   */
  lemma RateOnDisplay(ubdma: bool, cap: nat, es: seq<Event>, s: State)
    requires Guarantees.Reaches(ubdma, cap, es, s)
    ensures (Guarantees.InitialInv(ubdma, cap);
      var m := MarksIn(Initial(ubdma, cap), es, Marks(0, 0));
      && s.rps == m.last - m.before && s.published == m.last && m.last <= s.served
      && var r := End(s);
      && r.released == (if m.last == m.before then [] else s.released)
      && |r.ring.log| == |s.ring.log| + (if m.last == m.before then |s.released| else 0))
  {
    hide Core, Guarantees.Valid, Guarantees.Run, ReserveWrites, BlankBuffers, Below, SetupEntries, MarksIn;
    Guarantees.InitialInv(ubdma, cap);
    Guarantees.ReachesInv(ubdma, cap, es, s);
    CoreParts(s, Pending(s));
    RunRates(Initial(ubdma, cap), es, Marks(0, 0));
    hide ReleaseBuffers;
    ReleaseEntries(s);
  }

  // ----- output, in both modes

  /** The answers a step gives a client: to a packet received for it, or to what a poll for it sees. */
  function Gives(s: State, e: Event, c: nat): seq<Response.Answer> {
    if !e.LoopDrain? || s.visible == [] then []
    else
      var q := s.visible[0];
      match DispatchOf(s, q)
      case Response(Reply(client)) =>
        if client == c && Addressable(s, client, q.flags, q.result) then Answers(s.buffers[BufOf(q.flags)][..q.result], s.date) else []
      case Response(Poll(client)) =>
        if client == c && s.lastBuf.Some? && s.lastBuf.value < |s.buffers| && c in s.out && s.out[c] == []
           && |Requests(Trim.TrimLeft(s.buffers[s.lastBuf.value]))| > 5
        then Answers(Trim.TrimLeft(s.buffers[s.lastBuf.value]), s.date) else []
      case _ => []
  }

  ghost function GivenIn(s: State, es: seq<Event>, c: nat): seq<Response.Answer>
    requires Inv(s) && Guarantees.Valid(s, es)
    decreases |es|
  {
    if es == [] then [] else StepKeeps(s, es[0]); Gives(s, es[0], c) + GivenIn(Step(s, es[0]), es[1..], c)
  }

  /** What was queued and what is pending for a client is `given`; for one that is gone, what was queued is a prefix of it. */
  ghost predicate Account(s: State, c: nat, given: seq<Response.Answer>) {
    && (if c in s.out then Queued(s.ring.log, c) + s.out[c] == Response.Stream(given)
        else Queued(s.ring.log, c) <= Response.Stream(given))
    && (c >= s.nextId ==> given == [])
  }

  /** How a step changes a client's pending bytes, when it is no loop top. */
  ghost predicate OutputStep(r: State, s: State, e: Event, c: nat) {
    var given := Response.Stream(Gives(s, e, c));
    && (c in s.out && c in r.out ==> r.out[c] == s.out[c] + given)
    && (c !in s.out && c in r.out ==> r.out[c] == [] && c == s.nextId)
    && (c !in s.out ==> Gives(s, e, c) == [])
    && (c !in r.out && c in s.out ==> given == [])
  }

  lemma ReplyOutputStep(s: State, client: nat, flags: nat, result: nat)
    requires Addressable(s, client, flags, result) && result <= BUFFER_SIZE
    ensures RequestReply(s, flags, client, result).out ==
      s.out[client := s.out[client] + Response.Stream(Answers(s.buffers[BufOf(flags)][..result], s.date))]
  {
    hide ReleaseBuffers, Answers, Response.Stream, AfterReply, BufOf, Returned;
    ReleasedOut(Reply1(s, flags, client, result));
  }

  lemma ReleasedOut(s: State)
    ensures ReleaseBuffers(s).out == s.out
  {
    hide Returned;
  }

  lemma PollOutputStep(s: State, client: nat)
    requires s.lastBuf.Some? ==> s.lastBuf.value < |s.buffers|
    ensures Ubdma(s, client).out ==
      if s.lastBuf.Some? && client in s.out && s.out[client] == [] && |Requests(Trim.TrimLeft(s.buffers[s.lastBuf.value]))| > 5
      then s.out[client := Response.Stream(Answers(Trim.TrimLeft(s.buffers[s.lastBuf.value]), s.date))] else s.out
  {
    hide Requests, Response.Stream, Trim.TrimLeft;
    if s.lastBuf.Some? { AnswersDated(Trim.TrimLeft(s.buffers[s.lastBuf.value]), s.date); }
  }

  lemma SameGives(s: State, c: nat)
    requires s.visible != []
    ensures Gives(s, LoopDrain, c) == match DispatchOf(s, s.visible[0])
      case Response(Reply(client)) =>
        var q := s.visible[0];
        if client == c && Addressable(Pop(s), client, q.flags, q.result) then Answers(s.buffers[BufOf(q.flags)][..q.result], s.date) else []
      case Response(Poll(client)) => Gives(s, LoopDrain, c)
      case _ => []
  {
    hide DispatchOf, Answers, BufOf;
  }

  lemma NoStream()
    ensures Response.Stream([]) == []
  {
  }

  lemma DrainOutput(s: State, c: nat)
    requires Inv(s) && CanDrain(s)
    ensures Safe(Pop(s), s.visible[0]) && OutputStep(Drain(s), s, LoopDrain, c)
  {
    hide Core, CanProcess, ProcessEntryAccept, CloseConnection, Ubdma, RequestReply, ReleaseBuffers, DispatchOf, Addressable;
    hide BufOf, CqeOk, IsData, Answers, Response.Stream, Requests, Trim.TrimLeft;
    NoStream();
    DrainKeeps(s);
    var q, s1, rest := s.visible[0], Pop(s), Pending(Pop(s));
    PendingHead(s);
    SameDispatch(s, q);
    Descriptors.DispatchFacts(s, q, rest);
    SameGives(s, c);
    match DispatchOf(s, q)
    case Accept => AcceptOut(s1, q.result);
    case Response(Release) => ReleasedOut(s1);
    case Response(Close(client)) => CloseFrameOut(s1, client);
    case Response(Poll(client)) =>
      PollOutputStep(s1, client);
    case Response(Reply(client)) =>
      CoreParts(s, [q] + rest);
      DropQueue(q, rest, s.fdOf, s.ubdma);
      ReplyMeansData(s, q);
      Progress.NotNegative(s1, client, q.flags, q.result);
      ReplyMeans(s1, client, q.flags, q.result);
      ReplyOutputStep(s1, client, q.flags, q.result);
    case _ =>
  }

  lemma ReplyMeans(s: State, client: nat, flags: nat, result: int)
    requires Addressable(s, client, flags, result)
    ensures client in s.out && BufOf(flags) < |s.buffers| && 0 <= result <= |s.buffers[BufOf(flags)]|
  {
  }

  lemma AcceptOut(s: State, fd: int)
    ensures ProcessEntryAccept(s, fd).out == if fd > 0 then s.out[s.nextId := []] else s.out
  {
    hide Armed;
  }

  lemma CloseFrameOut(s: State, client: nat)
    ensures CloseConnection(s, client).out == s.out - {client}
  {
  }

  lemma StepOutput(s: State, e: Event, c: nat)
    requires Inv(s) && Enabled(s, e) && !e.LoopTop?
    ensures OutputStep(Step(s, e), s, e, c)
  {
    NoStream();
    hide Inv, CanDrain, CanReceive, CanComplete, Drain, End, Receive, OutputStep, Response.Stream;
    NoGives(s, e, c);
    match e
    case LoopTop(clock, date) =>
    case LoopDrain => DrainOutput(s, c);
    case LoopEnd => EndOut(s); SameOut(Step(s, e), s, e, c);
    case KernelReceives(entry, buf, packet, low) => ReceiveOut(s, entry, buf, packet, low); SameOut(Step(s, e), s, e, c);
    case _ => SameOut(Step(s, e), s, e, c);
  }

  lemma NoGives(s: State, e: Event, c: nat)
    ensures !e.LoopDrain? ==> Gives(s, e, c) == []
  {
  }

  lemma SameOut(r: State, s: State, e: Event, c: nat)
    requires r.out == s.out && Gives(s, e, c) == []
    ensures OutputStep(r, s, e, c)
  {
    hide Gives;
    NoStream();
  }

  lemma EndOut(s: State)
    ensures End(s).out == s.out
  {
    hide ReleaseBuffers;
    ReleasedOut(s);
  }

  lemma ReceiveOut(s: State, entry: nat, buf: nat, packet: seq<byte>, low: nat)
    requires Inv(s) && CanReceive(s, entry, buf, packet, low)
    ensures buf < |s.buffers| && |packet| <= |s.buffers[buf]| && Receive(s, entry, buf, packet, low).out == s.out
  {
    hide Inv;
    ReceiveKeeps(s, entry, buf, packet, low);
    hide ClientOf, CanReceive;
  }

  /** Only a loop top pushes sends, and then a client's pending bytes are queued. */
  lemma StepQueued(s: State, e: Event, c: nat)
    requires Inv(s) && Enabled(s, e) && c < ID_LIMIT
    ensures Queued(Step(s, e).ring.log, c) ==
      Queued(s.ring.log, c) + if e.LoopTop? && c in s.out then s.out[c] else []
  {
    hide Inv, CanDrain, CanReceive, CanComplete, Pushed, Queued, Top, Wait, Drain, End;
    if e.LoopTop? {
      TopQueued(s, e.clock, e.date, c);
    } else {
      hide Step, Enabled;
      StepPushed(s, e);
      PushedQueued(Step(s, e), s, e, c);
    }
  }

  lemma PushedQueued(r: State, s: State, e: Event, c: nat)
    requires Pushed(r, s, e) && !e.LoopTop?
    ensures Queued(r.ring.log, c) == Queued(s.ring.log, c) + []
  {
    hide Handback, Accepting, Tag, Queued, PollFits, ReceiveFits;
    var more := r.ring.log[|s.ring.log|..];
    assert r.ring.log == s.ring.log + more;
    QueuedConcat(s.ring.log, more, c);
    QueuedNone(more, c);
  }

  lemma TopQueued(s: State, clock: int, date: seq<byte>, c: nat)
    requires Inv(s) && s.phase == Head && c < ID_LIMIT
    ensures Queued(Top(s, clock, date).ring.log, c) == Queued(s.ring.log, c) + if c in s.out then s.out[c] else []
  {
    hide Core, Queued, SendsFrom, WidebandSend, Metrics, Top;
    CoreParts(s, Pending(s));
    Descriptors.MetricsRing(s, clock, date);
    var s1 := Metrics(s, clock, date);
    TopIs(s, s1, clock, date);
    FlushQueued(s1, c);
  }

  lemma FlushQueued(s: State, c: nat)
    requires Tables(s.fds, s.nextId, s.out, s.fdOf) && c < ID_LIMIT
    ensures Queued(WidebandSend(s).ring.log, c) == Queued(s.ring.log, c) + if c in s.out then s.out[c] else []
  {
    hide Queued, SendsFrom, Emptied, Settled;
    if s.out != map[] {
      SkipReserved(s.out, s.fds, 0, s.nextId);
      SendsCarry(s.out, s.fds, RESERVED, s.nextId, c);
      QueuedConcat(s.ring.log, Sends(s), c);
    }
  }

  /** A step adds to a client's account what it gives the client, and moves pending bytes into the queue at most. */
  lemma StepAccount(s: State, e: Event, c: nat, given: seq<Response.Answer>)
    requires Inv(s) && Enabled(s, e) && c < ID_LIMIT && Account(s, c, given)
    ensures Account(Step(s, e), c, given + Gives(s, e, c))
  {
    hide Inv, Step, Enabled, Queued, Response.Stream, Gives, Pushed, Flushes, Accepting;
    NoStream();
    StepQueued(s, e, c);
    StepSteady(s, e);
    StreamConcat(given, Gives(s, e, c));
    NoGives(s, e, c);
    OutLive(s, c);
    if e.LoopTop? {
      assert given + [] == given;
    } else {
      StepOutput(s, e, c);
      var r := Step(s, e);
      var q := Queued(s.ring.log, c);
      assert Queued(r.ring.log, c) == q;
      if c in s.out {
        assert q + (s.out[c] + Response.Stream(Gives(s, e, c))) == (q + s.out[c]) + Response.Stream(Gives(s, e, c));
      } else {
        assert q + [] == q && given + [] == given;
      }
    }
  }

  lemma OutLive(s: State, c: nat)
    requires Inv(s)
    ensures c in s.out ==> c < s.nextId
  {
    hide Core;
    CoreParts(s, Pending(s));
  }

  lemma {:induction false} RunAccount(s: State, es: seq<Event>, c: nat, given: seq<Response.Answer>)
    requires Inv(s) && Guarantees.Valid(s, es) && c < ID_LIMIT && Account(s, c, given)
    ensures Account(Guarantees.Run(s, es), c, given + GivenIn(s, es, c))
    decreases |es|
  {
    hide Inv, Step, Enabled, Account, Gives;
    if es == [] {
      assert GivenIn(s, es, c) == [] && given + [] == given && Guarantees.Run(s, es) == s;
    } else {
      StepKeeps(s, es[0]);
      StepAccount(s, es[0], c, given);
      var more := GivenIn(Step(s, es[0]), es[1..], c);
      RunAccount(Step(s, es[0]), es[1..], c, given + Gives(s, es[0], c));
      assert (given + Gives(s, es[0], c)) + more == given + (Gives(s, es[0], c) + more);
      assert GivenIn(s, es, c) == Gives(s, es[0], c) + more;
    }
  }

  /**
   Output is conserved in both modes: for every client of every run, what is queued and what is pending is the
   stream of the answers its packets and its polls were given, in order; for one that is gone, what was
   queued is a prefix of it.
   */
  lemma OutputInBothModes(ubdma: bool, cap: nat, es: seq<Event>, s: State, c: nat)
    requires Guarantees.Reaches(ubdma, cap, es, s) && c < ID_LIMIT
    ensures (Guarantees.InitialInv(ubdma, cap);
      var given := GivenIn(Initial(ubdma, cap), es, c);
      if c in s.out then Queued(s.ring.log, c) + s.out[c] == Response.Stream(given)
      else Queued(s.ring.log, c) <= Response.Stream(given))
  {
    hide Inv, Guarantees.Valid, Guarantees.Run, ReserveWrites, BlankBuffers, Below, SetupEntries, GivenIn, Queued;
    Guarantees.InitialInv(ubdma, cap);
    var start := Initial(ubdma, cap);
    QueuedNone(SetupEntries(), c);
    NoStream();
    assert Account(start, c, []);
    RunAccount(start, es, c, []);
    assert [] + GivenIn(start, es, c) == GivenIn(start, es, c);
  }
}
