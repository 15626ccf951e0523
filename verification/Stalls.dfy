/**
 Two runs at whose end the worker stands still for good: 4096 connections arrive behind one request and
 fill the ring, and then the hoarded buffer cannot go back, or the pending response cannot be flushed.
 */
module Stalls {
  import opened Bytes
  import opened ServerInternals
  import opened Machine
  import opened Invariants
  import opened Runs
  import opened Witnesses
  import Guarantees
  import Progress

  // ----- many connections

  /** Connections accepted on `n` descriptors from `fd` on. */
  function Crowd(fd: int, n: nat): seq<Cqe>
    decreases n
  {
    if n == 0 then [] else [Seen(fd)] + Crowd(fd + 1, n - 1)
  }

  function Fds(fd: int, n: nat): set<int>
    decreases n
  {
    if n == 0 then {} else {fd} + Fds(fd + 1, n - 1)
  }

  lemma {:induction false} AcceptedAll(es: seq<Event>, s: State, v: View, fd: int, n: nat) returns (es': seq<Event>, s': State)
    requires At(es, s, v) && fd > 0 && forall x :: x in v.openFds ==> x < fd
    ensures At(es', s', v.(posted := v.posted + Crowd(fd, n), openFds := v.openFds + Fds(fd, n)))
    decreases n
  {
    hide At;
    if n == 0 {
      es', s' := es, s;
      assert v.posted + [] == v.posted && v.openFds + {} == v.openFds;
    } else {
      es', s' := Accepted(es, s, v, fd);
      var v' := v.(posted := v.posted + [Seen(fd)], openFds := v.openFds + {fd});
      es', s' := AcceptedAll(es', s', v', fd + 1, n - 1);
      assert v.posted + Crowd(fd, n) == v'.posted + Crowd(fd + 1, n - 1);
      assert v.openFds + Fds(fd, n) == v'.openFds + Fds(fd + 1, n - 1);
    }
  }

  /** Draining them pushes a receive each; what the first client has pending stays. */
  ghost predicate Drained(v': View, v: View, n: nat) {
    && v'.phase == v.phase && v'.posted == v.posted && v'.visible == [] && v'.released == v.released
    && |v'.ring.log| == |v.ring.log| + n && v'.ring.head == v.ring.head && v'.ring.cap == v.ring.cap
    && v'.nextId >= v.nextId && v.fds.Keys <= v'.fds.Keys
    && FIRST in v.out && FIRST in v'.out && v'.out[FIRST] == v.out[FIRST]
  }

  lemma {:induction false} DrainedAll(es: seq<Event>, s: State, v: View, fd: int, n: nat) returns (es': seq<Event>, s': State, v': View)
    requires At(es, s, v) && v.phase == Draining && v.visible == Crowd(fd, n) && fd > 0
    requires FIRST < v.nextId && v.nextId + n <= ID_LIMIT && n <= v.ring.Room() && FIRST in v.out
    ensures At(es', s', v') && Drained(v', v, n)
    decreases n
  {
    hide At, Tag;
    if n == 0 {
      es', s', v' := es, s, v;
    } else {
      es', s' := DrainedAccept(es, s, v, fd);
      assert v.visible[1..] == Crowd(fd + 1, n - 1);
      v' := v.(visible := Crowd(fd + 1, n - 1), fds := v.fds[v.nextId := fd], out := v.out[v.nextId := []],
               nextId := v.nextId + 1, syncNow := true,
               ring := v.ring.(log := v.ring.log + [Sqe(RecvMulti(fd), Tag(v.nextId, INIT_REQUEST))]));
      es', s', v' := DrainedAll(es', s', v', fd + 1, n - 1);
    }
  }

  // ----- the hoard cannot go back

  /** What the next look at the queue finds: the request, what is behind it, and the connections. */
  lemma Gathers(behind: seq<Cqe>, n: nat) returns (es: seq<Event>, s: State)
    requires behind == [] || behind == [NoBuffers()]
    ensures |Packet()| <= BUFFER_SIZE
    ensures At(es, s, Delivered().(posted := [Data(0, Packet())] + (behind + Crowd(10, n)), openFds := {9} + Fds(10, n)))
  {
    hide At, Log, ReserveWrites, Tag, BlankBuffers, Below, Packet, Witnesses.Filled, Crowd, Fds;
    es, s := Delivers();
    var v := Delivered();
    if behind != [] {
      ReceiveEntry();
      es, s := Completed(es, s, v, 1040, -ENOBUFS);
      v := v.(posted := v.posted + behind);
    }
    assert v.posted == [Data(0, Packet())] + behind;
    es, s := AcceptedAll(es, s, v, 10, n);
    assert v.posted + Crowd(10, n) == [Data(0, Packet())] + (behind + Crowd(10, n));
  }

  /** The receive has no buffer left. */
  function NoBuffers(): Cqe { Cqe(Tag(FIRST, INIT_REQUEST), -ENOBUFS, 0) }

  lemma ReceiveEntry()
    ensures |Log()| == 1041 && Log()[1040].op.RecvMulti? && Log()[1040].userData == Tag(FIRST, INIT_REQUEST)
  {
    hide SetupEntries, Tag;
  }

  /** The worker stands still: no run from here has another step of the loop in it. */
  ghost predicate Still(s: State)
    requires Inv(s)
  {
    !Progress.CanStep(s) && !Progress.EverSteps(s)
  }

  lemma StillFrom(s: State)
    requires Inv(s) && !Progress.RingReady(s)
    ensures Still(s)
  {
    hide Inv, Progress.RingReady, Progress.HandlerReady, Enabled, Guarantees.Valid, Guarantees.Run;
    forall e: Event | Enabled(s, e) ensures IsKernel(e) { Progress.NotReady(s, e); }
    forall later: seq<Event> | Guarantees.Valid(s, later) ensures KernelSteps(later) {
      Progress.StandsForever(s, later);
    }
  }

  /** The ring is full, one buffer is hoarded, and the return that a quiet second asks for is retried forever. */
  lemma StuckReachable() returns (es: seq<Event>, s: State)
    ensures Guarantees.Reaches(false, CAP, es, s) && Inv(s) && Still(s)
    ensures s.phase == Draining && s.visible == [] && s.rps == 0 && |s.released| == 1 && s.ring.Room() == 0
  {
    var n: nat := CAP;
    PacketFacts();
    ReturnsOne();
    hide At, Log, ReserveWrites, Tag, BlankBuffers, Below, Packet, Payload, Witnesses.Filled, Crowd, Fds, Inv, Still;
    es, s := Gathers([], n);
    assert [] + Crowd(10, n) == Crowd(10, n);
    es, s := Replies(es, s, Crowd(10, n), {9} + Fds(10, n));
    var v := Replied(Crowd(10, n), {9} + Fds(10, n));
    var v';
    es, s, v' := DrainedAll(es, s, v, 10, n);
    AtInv(es, s, v');
    StillFrom(s);
  }

  // ----- the response cannot be flushed

  lemma DrainedRelease(es: seq<Event>, s: State, v: View) returns (es': seq<Event>, s': State)
    requires At(es, s, v) && v.phase == Draining && v.visible != [] && v.visible[0] == NoBuffers()
    requires v.released != [] && |v.released| <= v.ring.Room()
    ensures At(es', s', v.(visible := v.visible[1..], released := [], free := v.free + (set b | b in v.released),
                           ring := Returned(v.ring, v.released)))
  {
    hide Inv, Guarantees.Reaches, Tag, Unpack, Returned;
    AtInv(es, s, v);
    TagReads(FIRST, INIT_REQUEST);
    Go(es, s, v, LoopDrain);
    es', s' := es + [LoopDrain], Step(s, LoopDrain);
  }

  lemma {:induction false} OneSend(out: map<nat, seq<byte>>, fds: map<nat, int>, id: nat, end: nat, c: nat)
    requires id <= c < end && c in out && out[c] != [] && c in fds
    ensures |SendsFrom(out, fds, id, end)| >= 1
    decreases end - id
  {
    hide Tag;
    if id < c { OneSend(out, fds, id + 1, end, c); }
  }

  /** The ring is full, a response is pending, and the flush at the loop head aborts the worker. */
  lemma AbortReachable() returns (es: seq<Event>, s: State)
    ensures Guarantees.Reaches(false, CAP, es, s) && Inv(s) && Still(s)
    ensures s.phase == Head && |Sends(s)| >= 1 && s.ring.Room() == 0
  {
    var n: nat := CAP - 1;
    PacketFacts();
    ReturnsOne();
    LogFacts();
    hide At, Log, ReserveWrites, Tag, BlankBuffers, Below, Packet, Payload, Witnesses.Filled, Crowd, Fds, Inv, Still, AnsweredLog, SendsFrom, Returned;
    es, s := Gathers([NoBuffers()], n);
    var behind, open := [NoBuffers()] + Crowd(10, n), {9} + Fds(10, n);
    es, s := Replies(es, s, behind, open);
    es, s := DrainedRelease(es, s, Replied(behind, open));
    assert behind[1..] == Crowd(10, n);
    var v := Replied(behind, open).(visible := Crowd(10, n), released := [], free := Below(BUFFERS_COUNT),
                                    ring := Ring(CAP, AnsweredLog(), 1042, 1042, 1041));
    var v';
    es, s, v' := DrainedAll(es, s, v, 10, n);
    es, s := Ended(es, s, v');
    AtInv(es, s, v'.(phase := Head, released := [], free := v'.free + (set b | b in v'.released)));
    OneSend(s.out, s.fds, 0, s.nextId, FIRST);
    StillFrom(s);
  }
}
