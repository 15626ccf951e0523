/**
 Three runs in which the worker does what it should not: a close takes a descriptor away from
 another client, a response is left for whoever gets its client's descriptor next, and the next
 reply would not fit the output buffer.
 */
module Witnesses {
  import opened Bytes
  import opened ServerInternals
  import opened Machine
  import opened Invariants
  import opened Preserved
  import opened Runs
  import Histories
  import Response
  import Guarantees
  import Descriptors

  /** The fields the runs touch. */
  datatype View = View(
    phase: Phase, visible: seq<Cqe>, posted: seq<Cqe>, fds: map<nat, int>, out: map<nat, seq<byte>>, nextId: nat,
    openFds: set<int>, ring: Ring, syncNow: bool, released: seq<nat>, buffers: seq<seq<byte>>, free: set<nat>)

  function ViewOf(s: State): View {
    View(s.phase, s.visible, s.posted, s.fds, s.out, s.nextId, s.openFds, s.ring, s.syncNow, s.released, s.buffers, s.free)
  }

  const DATE: seq<byte> := Zeros(Response.DATE_LEN)
  const CAP: nat := 4096
  const FIRST: nat := 100

  /** The fields they do not touch. */
  predicate Quiet(s: State) { !s.ubdma && s.rps == 0 && s.clock == 0 && s.date == DATE }

  /** After the events `es` the worker is in a state with this view. */
  ghost predicate At(es: seq<Event>, s: State, v: View) {
    Guarantees.Reaches(false, CAP, es, s) && Quiet(s) && ViewOf(s) == v
  }

  lemma AtInv(es: seq<Event>, s: State, v: View)
    requires At(es, s, v)
    ensures Inv(s) && Guarantees.Reaches(false, CAP, es, s) && Quiet(s) && ViewOf(s) == v
  {
    hide Inv, Guarantees.Reaches;
    Guarantees.ReachesInv(false, CAP, es, s);
  }

  // ----- extending a run

  /** A possible event extends a run. */
  lemma {:induction false} RunSnoc(s: State, es: seq<Event>, e: Event)
    requires Inv(s) && Guarantees.Valid(s, es) && Enabled(Guarantees.Run(s, es), e)
    ensures Guarantees.Valid(s, es + [e])
    ensures Inv(Guarantees.Run(s, es)) && Guarantees.Run(s, es + [e]) == Step(Guarantees.Run(s, es), e)
    decreases |es|
  {
    hide Inv, Step, Enabled;
    Guarantees.RunKeeps(s, es);
    StepKeeps(Guarantees.Run(s, es), e);
    if es == [] {
      assert [] + [e] == [e] && [e][1..] == [];
    } else {
      StepKeeps(s, es[0]);
      RunSnoc(Step(s, es[0]), es[1..], e);
      assert (es + [e])[0] == es[0] && (es + [e])[1..] == es[1..] + [e];
    }
  }

  lemma Go(es: seq<Event>, s: State, v: View, e: Event)
    requires At(es, s, v) && Inv(s) && Enabled(s, e)
    ensures Guarantees.Reaches(false, CAP, es + [e], Step(s, e)) && Inv(Step(s, e))
  {
    hide Inv, Step, Enabled, Guarantees.Valid, Guarantees.Run;
    Guarantees.InitialInv(false, CAP);
    RunSnoc(Initial(false, CAP), es, e);
    StepKeeps(s, e);
  }

  // ----- one lemma an event

  lemma Accepted(es: seq<Event>, s: State, v: View, fd: int) returns (es': seq<Event>, s': State)
    requires At(es, s, v) && fd > 0 && fd !in v.openFds
    ensures At(es', s', v.(posted := v.posted + [Cqe(CODE_ACCEPT, fd, 0)], openFds := v.openFds + {fd}))
  {
    hide Inv, Guarantees.Reaches;
    AtInv(es, s, v);
    var e := KernelAccepts(fd);
    Go(es, s, v, e);
    es', s' := es + [e], Step(s, e);
  }

  lemma Completed(es: seq<Event>, s: State, v: View, entry: nat, result: int) returns (es': seq<Event>, s': State)
    requires At(es, s, v) && entry < v.ring.consumed <= |v.ring.log| && result <= 0
    requires v.ring.log[entry].op.RecvMulti? || v.ring.log[entry].op.Send?
    ensures At(es', s', v.(posted := v.posted + [Cqe(v.ring.log[entry].userData, result, 0)]))
  {
    hide Inv, Guarantees.Reaches;
    AtInv(es, s, v);
    var e := KernelCompletes(entry, result, 0);
    Go(es, s, v, e);
    es', s' := es + [e], Step(s, e);
  }

  lemma Received(es: seq<Event>, s: State, v: View, entry: nat, buf: nat, packet: seq<byte>) returns (es': seq<Event>, s': State)
    requires At(es, s, v) && entry < v.ring.consumed <= |v.ring.log| && FIRST in v.out && buf in v.free
    requires v.ring.log[entry].op.RecvMulti? && v.ring.log[entry].userData == Tag(FIRST, INIT_REQUEST)
    requires 1 <= |packet| <= BUFFER_SIZE && buf < |v.buffers| && |packet| <= |v.buffers[buf]|
    requires v.visible == [] && forall i :: 0 <= i < |v.posted| ==> v.posted[i].result > 0
    ensures At(es', s', v.(free := v.free - {buf}, buffers := v.buffers[buf := packet + v.buffers[buf][|packet|..]],
                           posted := v.posted + [Cqe(Tag(FIRST, INIT_REQUEST), |packet|, buf * 0x1_0000)]))
  {
    hide Inv, Guarantees.Reaches, Tag, Unpack, BufOf;
    AtInv(es, s, v);
    TagReads(FIRST, INIT_REQUEST);
    assert [] + v.posted == v.posted;
    var e := KernelReceives(entry, buf, packet, 0);
    Go(es, s, v, e);
    es', s' := es + [e], Step(s, e);
  }

  /** A loop top that finds these bytes pending. */
  lemma Topped(es: seq<Event>, s: State, v: View, sends: seq<Sqe>, out: map<nat, seq<byte>>) returns (es': seq<Event>, s': State)
    requires At(es, s, v) && v.phase == Head && v.visible == []
    requires sends == SendsFrom(v.out, v.fds, 0, v.nextId) && out == Emptied(v.out, v.fds) && |sends| <= v.ring.Room()
    ensures At(es', s', v.(phase := Synced, syncNow := false, out := out,
                           ring := if v.syncNow || v.out != map[] then v.ring.PushAll(sends).Sync() else v.ring))
  {
    hide Inv, Guarantees.Reaches, SendsFrom, Emptied, Settled;
    AtInv(es, s, v);
    if v.out == map[] {
      NoOutput(v.fds, 0, v.nextId);
      assert v.ring.PushAll([]) == v.ring;
    }
    var e := LoopTop(0, DATE);
    Go(es, s, v, e);
    es', s' := es + [e], Step(s, e);
  }

  lemma {:induction false} NoOutput(fds: map<nat, int>, id: nat, end: nat)
    ensures SendsFrom(map[], fds, id, end) == [] && Emptied(map[], fds) == map[]
    decreases end - id
  {
    if id < end {
      NoOutput(fds, id + 1, end);
    }
  }

  lemma Waited(es: seq<Event>, s: State, v: View) returns (es': seq<Event>, s': State)
    requires At(es, s, v) && v.phase == Synced && v.visible == [] && |v.ring.log| - v.ring.head < v.ring.cap - 4
    ensures At(es', s', v.(phase := Draining, visible := v.posted, posted := [],
                           ring := if v.posted == [] then v.ring.Submit() else v.ring))
  {
    hide Inv, Guarantees.Reaches;
    AtInv(es, s, v);
    Go(es, s, v, LoopWait);
    es', s' := es + [LoopWait], Step(s, LoopWait);
  }

  lemma Ended(es: seq<Event>, s: State, v: View) returns (es': seq<Event>, s': State)
    requires At(es, s, v) && v.phase == Draining && v.visible == [] && |v.released| <= v.ring.Room()
    ensures At(es', s', v.(phase := Head, released := [], free := v.free + (set b | b in v.released),
                           ring := if v.released == [] then v.ring else Returned(v.ring, v.released)))
  {
    hide Inv, Guarantees.Reaches, Returned;
    AtInv(es, s, v);
    assert v.released == [] ==> v.free + (set b | b in v.released) == v.free;
    Go(es, s, v, LoopEnd);
    es', s' := es + [LoopEnd], Step(s, LoopEnd);
  }

  lemma DrainedAccept(es: seq<Event>, s: State, v: View, fd: int) returns (es': seq<Event>, s': State)
    requires At(es, s, v) && v.phase == Draining && v.visible != [] && v.visible[0] == Cqe(CODE_ACCEPT, fd, 0)
    requires fd > 0 && v.nextId < ID_LIMIT && v.ring.Room() > 0
    ensures At(es', s', v.(visible := v.visible[1..], fds := v.fds[v.nextId := fd], out := v.out[v.nextId := []],
                           nextId := v.nextId + 1, syncNow := true,
                           ring := v.ring.(log := v.ring.log + [Sqe(RecvMulti(fd), Tag(v.nextId, INIT_REQUEST))])))
  {
    hide Inv, Guarantees.Reaches, Tag;
    AtInv(es, s, v);
    Go(es, s, v, LoopDrain);
    es', s' := es + [LoopDrain], Step(s, LoopDrain);
  }

  lemma DrainedClose(es: seq<Event>, s: State, v: View, code: u16, result: int) returns (es': seq<Event>, s': State)
    requires At(es, s, v) && v.phase == Draining && v.visible != [] && code < 0x8000
    requires (result == 0 && code != SEND_EVENT) || result == -ECONNRESET
    requires v.visible[0] == Cqe(Tag(FIRST, code), result, 0)
    requires FIRST in v.fds ==> v.fds[FIRST] > 0
    ensures At(es', s', v.(visible := v.visible[1..], fds := v.fds - {FIRST}, out := v.out - {FIRST},
                           openFds := v.openFds - {if FIRST in v.fds then v.fds[FIRST] else 0xFF}))
  {
    hide Inv, Guarantees.Reaches, Tag, Unpack;
    AtInv(es, s, v);
    TagReads(FIRST, code);
    CloseFrame(Pop(s), FIRST);
    Go(es, s, v, LoopDrain);
    es', s' := es + [LoopDrain], Step(s, LoopDrain);
  }

  /** A reply whose answers fit. */
  lemma DrainedReply(es: seq<Event>, s: State, v: View, buf: nat, packet: seq<byte>) returns (es': seq<Event>, s': State)
    requires At(es, s, v) && v.phase == Draining && v.visible != [] && buf < |v.buffers| && buf < 0x1_0000
    requires 1 <= |packet| <= |v.buffers[buf]| && |packet| <= BUFFER_SIZE && v.buffers[buf][..|packet|] == packet
    requires v.visible[0] == Cqe(Tag(FIRST, INIT_REQUEST), |packet|, buf * 0x1_0000)
    requires FIRST in v.out && v.released == []
    requires |v.out[FIRST]| + |Response.Stream(Answers(packet, DATE))| <= DATA_LAKE_SIZE
    ensures At(es', s', v.(visible := v.visible[1..], syncNow := true, released := [buf],
                           out := v.out[FIRST := v.out[FIRST] + Response.Stream(Answers(packet, DATE))]))
  {
    hide Inv, Guarantees.Reaches, Tag, Unpack, Answers, Response.Stream, BufOf;
    AtInv(es, s, v);
    TagReads(FIRST, INIT_REQUEST);
    FlagsDecode(buf, 0);
    Go(es, s, v, LoopDrain);
    es', s' := es + [LoopDrain], Step(s, LoopDrain);
  }

  // ----- the common beginning

  function Table(): map<nat, int> { ReserveWrites(RESERVED) }

  /** The table with the first client on descriptor 9. */
  function Joined(): map<nat, int> { Table()[FIRST := 9] }

  /** The log after the accept: the receive of the first client is entry 1040. */
  function Log(): seq<Sqe> { SetupEntries() + [Sqe(RecvMulti(9), Tag(FIRST, INIT_REQUEST))] }

  function Start(): View {
    View(Head, [], [], Table(), map[], FIRST, {}, Ring(CAP, SetupEntries(), 1024, 1024, 0), true, [], BlankBuffers(), Below(BUFFERS_COUNT))
  }

  lemma StartAt()
    ensures At([], Initial(false, CAP), Start())
  {
    hide SetupEntries, ReserveWrites, Inv, BlankBuffers, Below;
    Guarantees.InitialInv(false, CAP);
  }

  function Seen(fd: int): Cqe { Cqe(CODE_ACCEPT, fd, 0) }

  /** The first client was accepted on descriptor 9 and its receive was taken. */
  function Listening(): View {
    Start().(phase := Draining, fds := Joined(), out := map[FIRST := []], nextId := 101, openFds := {9}, syncNow := false,
             ring := Ring(CAP, Log(), 1041, 1041, 1040))
  }

  lemma Listens() returns (es: seq<Event>, s: State)
    ensures At(es, s, Listening())
  {
    hide At, SetupEntries, ReserveWrites, Tag, BlankBuffers, Below, SendsFrom, Emptied;
    NoOutput(Table(), 0, FIRST);
    StartAt();
    var v := Start();
    es, s := Topped([], Initial(false, CAP), v, [], map[]);
    assert v.ring.PushAll([]) == v.ring;
    v := v.(phase := Synced, ring := Ring(CAP, SetupEntries(), 1040, 1024, 1024), syncNow := false);
    es, s := Waited(es, s, v);
    v := v.(phase := Draining, ring := Ring(CAP, SetupEntries(), 1040, 1040, 1024));
    es, s := Accepted(es, s, v, 9);
    assert v.posted + [Seen(9)] == [Seen(9)] && v.openFds + {9} == {9};
    v := v.(posted := [Seen(9)], openFds := {9});
    es, s := Turned(es, s, v);
    v := v.(visible := [Seen(9)], posted := []);
    es, s := DrainedAccept(es, s, v, 9);
    assert [Seen(9)][1..] == [];
    v := v.(visible := [], fds := Joined(), out := map[FIRST := []], nextId := 101, syncNow := true,
            ring := Ring(CAP, Log(), 1040, 1040, 1024));
    es, s := Turned(es, s, v);
  }

  /** From the end of one drain to the start of the next, with nothing pending and nothing hoarded. */
  lemma Turned(es: seq<Event>, s: State, v: View) returns (es': seq<Event>, s': State)
    requires At(es, s, v) && v.phase == Draining && v.visible == [] && v.released == []
    requires forall c: nat :: c in v.out ==> v.out[c] == []
    requires v.ring.Room() >= 0 && v.ring.head <= v.ring.consumed && |v.ring.log| - v.ring.head < v.ring.cap - 4
    ensures var ring := if v.syncNow || v.out != map[] then v.ring.Sync() else v.ring;
      At(es', s', v.(visible := v.posted, posted := [], syncNow := false,
                     ring := if v.posted == [] then ring.Submit() else ring))
  {
    hide At, SendsFrom, Emptied;
    NothingToSend(v.out, v.fds, 0, v.nextId);
    es', s' := Ended(es, s, v);
    assert v.free + (set b | b in v.released) == v.free;
    es', s' := Topped(es', s', v.(phase := Head), [], v.out);
    assert v.ring.PushAll([]) == v.ring;
    es', s' := Waited(es', s', v.(phase := Synced, syncNow := false,
                                  ring := if v.syncNow || v.out != map[] then v.ring.Sync() else v.ring));
  }

  lemma {:induction false} NothingToSend(out: map<nat, seq<byte>>, fds: map<nat, int>, id: nat, end: nat)
    requires forall c: nat :: c in out ==> out[c] == []
    ensures SendsFrom(out, fds, id, end) == [] && Emptied(out, fds) == out
    decreases end - id
  {
    if id < end {
      NothingToSend(out, fds, id + 1, end);
    }
  }

  // ----- one request answered

  function Packet(): seq<byte> { Guarantees.JsonWire(1) }

  /** The response to it. */
  function Payload(): seq<byte> { Response.Stream(Answers(Packet(), DATE)) }

  function Filled(buffers: seq<seq<byte>>, buf: nat, packet: seq<byte>): seq<seq<byte>>
    requires buf < |buffers| && |packet| <= |buffers[buf]|
  {
    buffers[buf := packet + buffers[buf][|packet|..]]
  }

  function Data(buf: nat, packet: seq<byte>): Cqe { Cqe(Tag(FIRST, INIT_REQUEST), |packet|, buf * 0x1_0000) }

  function AnsweredLog(): seq<Sqe> { Log() + [Provide(0)] }

  /** The request was answered, its buffer went back, and the response is pending. */
  function Answered(): View
    requires |Packet()| <= BUFFER_SIZE
  {
    Listening().(phase := Head, out := map[FIRST := Payload()], buffers := Filled(BlankBuffers(), 0, Packet()), syncNow := true,
                 ring := Ring(CAP, AnsweredLog(), 1042, 1042, 1041))
  }

  lemma PacketFacts()
    ensures |Packet()| == 40 && |Payload()| == 224
  {
    hide Guarantees.JsonWire, Answers, Response.Stream;
    Guarantees.JsonPacket(1, DATE);
  }

  /** The request arrived. */
  function Delivered(): View
    requires |Packet()| <= BUFFER_SIZE
  {
    Listening().(posted := [Data(0, Packet())], buffers := Filled(BlankBuffers(), 0, Packet()), free := Below(BUFFERS_COUNT) - {0})
  }

  lemma Delivers() returns (es: seq<Event>, s: State)
    ensures |Packet()| <= BUFFER_SIZE && At(es, s, Delivered())
  {
    PacketFacts();
    hide At, SetupEntries, ReserveWrites, Tag, BlankBuffers, Below, Packet, Filled;
    es, s := Listens();
    var v := Listening();
    assert v.ring.log[1040] == Sqe(RecvMulti(9), Tag(FIRST, INIT_REQUEST));
    es, s := Received(es, s, v, 1040, 0, Packet());
    FilledIs(BlankBuffers(), 0, Packet());
    assert v.posted + [Data(0, Packet())] == [Data(0, Packet())];
  }

  /** The loop is about to see it, with other completions behind it. */
  function Waiting(behind: seq<Cqe>, openFds: set<int>): View
    requires |Packet()| <= BUFFER_SIZE
  {
    Delivered().(visible := [Data(0, Packet())] + behind, posted := [], openFds := openFds, ring := Ring(CAP, Log(), 1041, 1041, 1041))
  }

  lemma Arrives(es: seq<Event>, s: State, behind: seq<Cqe>, openFds: set<int>) returns (es': seq<Event>, s': State)
    requires |Packet()| <= BUFFER_SIZE
    requires At(es, s, Delivered().(posted := [Data(0, Packet())] + behind, openFds := openFds))
    ensures At(es', s', Waiting(behind, openFds))
  {
    ReturnsOne();
    hide At, Log, ReserveWrites, Tag, BlankBuffers, Below, Packet, Filled;
    assert FIRST in Delivered().out && ([Data(0, Packet())] + behind)[0] == Data(0, Packet());
    es', s' := Turned(es, s, Delivered().(posted := [Data(0, Packet())] + behind, openFds := openFds));
  }

  lemma FilledIs(buffers: seq<seq<byte>>, buf: nat, packet: seq<byte>)
    requires buf < |buffers| && |packet| <= |buffers[buf]|
    ensures Filled(buffers, buf, packet) == buffers[buf := packet + buffers[buf][|packet|..]]
    ensures |Filled(buffers, buf, packet)| == |buffers| && |Filled(buffers, buf, packet)[buf]| == |buffers[buf]|
    ensures Filled(buffers, buf, packet)[buf][..|packet|] == packet
    ensures forall b :: 0 <= b < |buffers| && b != buf ==> Filled(buffers, buf, packet)[b] == buffers[b]
  {
  }

  lemma ReturnsOne()
    ensures Returned(Ring(CAP, Log(), 1041, 1041, 1041), [0]) == Ring(CAP, AnsweredLog(), 1042, 1042, 1041)
    ensures Below(BUFFERS_COUNT) - {0} + (set b | b in [0]) == Below(BUFFERS_COUNT)
    ensures |Log()| == 1041
  {
    hide SetupEntries, Below, Tag;
    assert Provides([0]) == [Provide(0)];
  }

  /** The request is answered in the loop's next turn. */
  function Replied(behind: seq<Cqe>, openFds: set<int>): View
    requires |Packet()| <= BUFFER_SIZE
  {
    Waiting(behind, openFds).(visible := behind, syncNow := true, released := [0], out := map[FIRST := Payload()])
  }

  lemma Replies(es: seq<Event>, s: State, behind: seq<Cqe>, openFds: set<int>) returns (es': seq<Event>, s': State)
    requires |Packet()| <= BUFFER_SIZE
    requires At(es, s, Delivered().(posted := [Data(0, Packet())] + behind, openFds := openFds))
    ensures At(es', s', Replied(behind, openFds))
  {
    PacketFacts();
    hide At, Log, ReserveWrites, Tag, BlankBuffers, Below, Packet, Payload, Filled, Answers, Response.Stream;
    es', s' := Arrives(es, s, behind, openFds);
    WaitingFacts(behind, openFds);
    es', s' := DrainedReply(es', s', Waiting(behind, openFds), 0, Packet());
    RepliedIs(Payload(), behind, openFds);
  }

  lemma WaitingFacts(behind: seq<Cqe>, openFds: set<int>)
    requires |Packet()| <= BUFFER_SIZE
    ensures var v := Waiting(behind, openFds);
      && |v.buffers| == BUFFERS_COUNT && |v.buffers[0]| == BUFFER_SIZE && v.buffers[0][..|Packet()|] == Packet()
      && v.visible != [] && v.visible[0] == Data(0, Packet()) && v.out == map[FIRST := []]
    ensures Payload() == Response.Stream(Answers(Packet(), DATE))
  {
    FilledIs(BlankBuffers(), 0, Packet());
    hide Log, ReserveWrites, Tag, BlankBuffers, Below, Packet, Filled, Answers, Response.Stream;
  }

  lemma RepliedIs(payload: seq<byte>, behind: seq<Cqe>, openFds: set<int>)
    requires |Packet()| <= BUFFER_SIZE && payload == Payload()
    ensures var v := Waiting(behind, openFds);
      v.(visible := v.visible[1..], syncNow := true, released := [0], out := v.out[FIRST := v.out[FIRST] + payload]) == Replied(behind, openFds)
  {
    hide Log, ReserveWrites, Tag, BlankBuffers, Below, Packet, Payload, Filled;
    assert [] + payload == payload;
  }

  lemma AnswersOne() returns (es: seq<Event>, s: State)
    ensures |Packet()| <= BUFFER_SIZE && At(es, s, Answered())
  {
    PacketFacts();
    ReturnsOne();
    hide At, Log, ReserveWrites, Tag, BlankBuffers, Below, Packet, Payload, Filled, AnsweredLog, Returned;
    es, s := Delivers();
    assert [Data(0, Packet())] + [] == [Data(0, Packet())];
    es, s := Replies(es, s, [], {9});
    es, s := Ended(es, s, Replied([], {9}));
  }

  // ----- the response is flushed

  function Flush(): Sqe { Sqe(Send(9, Payload()), Tag(FIRST, SEND_EVENT)) }

  function FlushedLog(): seq<Sqe> { AnsweredLog() + [Flush()] }

  /** The send of the response is entry 1042, synced but not taken; `posted` is what the next look at the queue will find. */
  function Flushed(posted: seq<Cqe>): View
    requires |Packet()| <= BUFFER_SIZE
  {
    Answered().(phase := Synced, posted := posted, out := map[FIRST := []], syncNow := false,
                ring := Ring(CAP, FlushedLog(), 1043, 1042, 1042))
  }

  lemma LogFacts()
    ensures |Log()| == 1041 && |AnsweredLog()| == 1042 && |FlushedLog()| == 1043
    ensures FlushedLog()[1040] == Sqe(RecvMulti(9), Tag(FIRST, INIT_REQUEST)) && FlushedLog()[1042] == Flush()
    ensures AnsweredLog()[1040] == FlushedLog()[1040]
    ensures Ring(CAP, AnsweredLog(), 1042, 1042, 1041).PushAll([Flush()]).Sync() == Ring(CAP, FlushedLog(), 1043, 1042, 1042)
  {
    hide SetupEntries, Tag, Payload;
  }

  lemma Flushes(es: seq<Event>, s: State, posted: seq<Cqe>) returns (es': seq<Event>, s': State)
    requires |Packet()| <= BUFFER_SIZE && At(es, s, Answered().(posted := posted))
    ensures At(es', s', Flushed(posted))
  {
    PacketFacts();
    LogFacts();
    hide At, Log, ReserveWrites, Tag, BlankBuffers, Below, Packet, Payload, Filled, AnsweredLog, FlushedLog, SendsFrom, Emptied;
    OneToSend(Payload());
    es', s' := Topped(es, s, Answered().(posted := posted), [Flush()], map[FIRST := []]);
  }

  lemma OneToSend(payload: seq<byte>)
    requires payload != []
    ensures SendsFrom(map[FIRST := payload], Joined(), 0, 101) == [Sqe(Send(9, payload), Tag(FIRST, SEND_EVENT))]
    ensures Emptied(map[FIRST := payload], Joined()) == map[FIRST := []]
  {
    hide Tag, ReserveWrites;
    NothingBefore(map[FIRST := payload], Joined(), 0, 101);
    assert SendsFrom(map[FIRST := payload], Joined(), 101, 101) == [];
  }

  lemma {:induction false} NothingBefore(out: map<nat, seq<byte>>, fds: map<nat, int>, id: nat, end: nat)
    requires id <= FIRST <= end && forall c: nat :: c in out ==> c >= FIRST
    ensures SendsFrom(out, fds, id, end) == SendsFrom(out, fds, FIRST, end)
    decreases FIRST - id
  {
    hide Tag;
    if id < FIRST {
      NothingBefore(out, fds, id + 1, end);
    }
  }

  // ----- a close takes a descriptor away from another client

  function Resets(): Cqe { Cqe(Tag(FIRST, SEND_EVENT), -ECONNRESET, 0) }

  function Ends(): Cqe { Cqe(Tag(FIRST, INIT_REQUEST), 0, 0) }

  /** The send reports a reset, the receive ends, and a connection on descriptor 255 waits behind them. */
  function ClosedTwice(): View
    requires |Packet()| <= BUFFER_SIZE
  {
    Flushed([]).(phase := Draining, visible := [Resets(), Ends(), Seen(255)], openFds := {9, 255},
                 ring := Ring(CAP, FlushedLog(), 1043, 1043, 1043))
  }

  lemma ClosesTwice() returns (es: seq<Event>, s: State)
    ensures |Packet()| <= BUFFER_SIZE && At(es, s, ClosedTwice())
  {
    PacketFacts();
    LogFacts();
    hide At, ReserveWrites, Tag, BlankBuffers, Below, Packet, Payload, Filled, FlushedLog;
    es, s := AnswersOne();
    es, s := Flushes(es, s, []);
    es, s := Waited(es, s, Flushed([]));
    var v := Flushed([]).(phase := Draining, ring := Ring(CAP, FlushedLog(), 1043, 1043, 1042));
    es, s := Completed(es, s, v, 1042, -ECONNRESET);
    assert v.posted + [Resets()] == [Resets()];
    v := v.(posted := [Resets()]);
    es, s := Completed(es, s, v, 1040, 0);
    assert v.posted + [Ends()] == [Resets(), Ends()];
    v := v.(posted := [Resets(), Ends()]);
    es, s := Accepted(es, s, v, 255);
    assert v.posted + [Seen(255)] == [Resets(), Ends(), Seen(255)] && v.openFds + {255} == {9, 255};
    v := v.(posted := [Resets(), Ends(), Seen(255)], openFds := {9, 255});
    assert FIRST in v.out;
    es, s := Turned(es, s, v);
  }

  /**
   After this run a live client's descriptor is closed, and the kernel may hand its number to somebody
   else: the first client was closed on the reset of its send, and again on the end of its receive.
   */
  lemma StaleCloseReachable() returns (es: seq<Event>, s: State)
    ensures Guarantees.Reaches(false, CAP, es, s)
    ensures 101 in s.out && 101 in s.fds && s.fds[101] == 0xFF && 0xFF !in s.openFds
    ensures !Descriptors.DistinctFds(s)
  {
    PacketFacts();
    LogFacts();
    hide At, ReserveWrites, Tag, BlankBuffers, Below, Packet, Payload, Filled, FlushedLog;
    es, s := ClosesTwice();
    var v := ClosedTwice();
    es, s := DrainedClose(es, s, v, SEND_EVENT, -ECONNRESET);
    v := v.(visible := v.visible[1..], fds := v.fds - {FIRST}, out := v.out - {FIRST}, openFds := v.openFds - {9});
    es, s := DrainedClose(es, s, v, INIT_REQUEST, 0);
    v := v.(visible := v.visible[1..], fds := v.fds - {FIRST}, out := v.out - {FIRST}, openFds := v.openFds - {0xFF});
    es, s := DrainedAccept(es, s, v, 255);
    AtInv(es, s, v.(visible := v.visible[1..], fds := v.fds[101 := 255], out := v.out[101 := []], nextId := 102, syncNow := true,
                    ring := v.ring.(log := v.ring.log + [Sqe(RecvMulti(255), Tag(101, INIT_REQUEST))])));
  }

  // ----- a response is left for whoever gets the descriptor next

  /** The stream of the first client ended; its send is still to be taken. */
  function Closing(): View
    requires |Packet()| <= BUFFER_SIZE
  {
    Flushed([]).(phase := Draining, visible := [Ends()])
  }

  lemma ClosesEarly() returns (es: seq<Event>, s: State)
    ensures |Packet()| <= BUFFER_SIZE && At(es, s, Closing())
  {
    PacketFacts();
    LogFacts();
    hide At, ReserveWrites, Tag, BlankBuffers, Below, Packet, Payload, Filled, FlushedLog, AnsweredLog;
    es, s := AnswersOne();
    es, s := Completed(es, s, Answered(), 1040, 0);
    assert Answered().posted + [Ends()] == [Ends()];
    es, s := Flushes(es, s, [Ends()]);
    es, s := Waited(es, s, Flushed([Ends()]));
  }

  /**
   After this run the response to the first client, which is gone, is still to be taken by the kernel,
   on a descriptor that by now is another client's: nothing was closed twice and no descriptor is shared.
   */
  lemma LateSendReachable() returns (es: seq<Event>, s: State)
    ensures Guarantees.Reaches(false, CAP, es, s)
    ensures s.ring.consumed == 1042 && s.ring.synced == 1043 <= |s.ring.log| && Enabled(s, KernelTakes(1043))
    ensures s.ring.log[1042] == Sqe(Send(9, Payload()), Tag(FIRST, SEND_EVENT)) && |Payload()| == 224
    ensures FIRST !in s.out && s.out.Keys == {101} && 101 in s.fds && s.fds[101] == 9 && s.openFds == {9}
    ensures Descriptors.DistinctFds(s) && !Descriptors.Sockets(s)
  {
    PacketFacts();
    LogFacts();
    hide At, ReserveWrites, Tag, BlankBuffers, Below, Packet, Payload, Filled, FlushedLog;
    es, s := ClosesEarly();
    var v := Closing();
    es, s := DrainedClose(es, s, v, INIT_REQUEST, 0);
    assert v.visible[1..] == [] && v.openFds - {9} == {} && v.out - {FIRST} == map[];
    v := v.(visible := [], fds := Joined() - {FIRST}, out := map[], openFds := {});
    es, s := Accepted(es, s, v, 9);
    assert v.posted + [Seen(9)] == [Seen(9)] && v.openFds + {9} == {9};
    v := v.(posted := [Seen(9)], openFds := {9});
    es, s := Turned(es, s, v);
    v := v.(visible := [Seen(9)], posted := []);
    es, s := DrainedAccept(es, s, v, 9);
    assert v.visible[1..] == [];
    AtInv(es, s, v.(visible := v.visible[1..], fds := v.fds[101 := 9], out := v.out[101 := []], nextId := 102, syncNow := true,
                    ring := v.ring.(log := v.ring.log + [Sqe(RecvMulti(9), Tag(101, INIT_REQUEST))])));
    Parted(s);
  }

  /** One live client with a descriptor of its own, and an untaken send for a client that is gone. */
  lemma Parted(s: State)
    requires s.out.Keys == {101} && 101 in s.fds && s.fds[101] == 9 && s.openFds == {9} && Pending(s) == []
    requires s.ring.consumed == 1042 < |s.ring.log| && s.ring.log[1042] == Sqe(Send(9, Payload()), Tag(FIRST, SEND_EVENT))
    ensures Descriptors.DistinctFds(s) && !Descriptors.Sockets(s)
  {
    hide Tag, Unpack, Payload;
    TagReads(FIRST, SEND_EVENT);
    assert Descriptors.EntryClient(s.ring.log[1042]) !in s.out.Keys;
  }

  // ----- the next reply does not fit

  /** Two packets of fifty and of forty-seven requests wait, in buffers 0 and 1. */
  function Crowded(a: seq<byte>, b: seq<byte>): View
    requires |a| <= BUFFER_SIZE && |b| <= BUFFER_SIZE
  {
    Listening().(visible := [Data(0, a), Data(1, b)], buffers := Filled(Filled(BlankBuffers(), 0, a), 1, b),
                 free := Below(BUFFERS_COUNT) - {0} - {1}, ring := Ring(CAP, Log(), 1041, 1041, 1041))
  }

  lemma Crowds(a: seq<byte>, b: seq<byte>) returns (es: seq<Event>, s: State)
    requires 1 <= |a| <= BUFFER_SIZE && 1 <= |b| <= BUFFER_SIZE
    ensures At(es, s, Crowded(a, b))
  {
    FilledIs(BlankBuffers(), 0, a);
    FilledIs(Filled(BlankBuffers(), 0, a), 1, b);
    hide At, SetupEntries, ReserveWrites, Tag, BlankBuffers, Below, Filled;
    es, s := Listens();
    var v := Listening();
    assert v.ring.log[1040] == Sqe(RecvMulti(9), Tag(FIRST, INIT_REQUEST));
    es, s := Received(es, s, v, 1040, 0, a);
    assert v.posted + [Data(0, a)] == [Data(0, a)];
    v := v.(posted := [Data(0, a)], buffers := Filled(BlankBuffers(), 0, a), free := v.free - {0});
    es, s := Received(es, s, v, 1040, 1, b);
    assert v.posted + [Data(1, b)] == [Data(0, a), Data(1, b)];
    v := v.(posted := [Data(0, a), Data(1, b)], buffers := Filled(v.buffers, 1, b), free := v.free - {1});
    es, s := Turned(es, s, v);
  }

  /** The first of them was answered. */
  function HalfAnswered(a: seq<byte>, b: seq<byte>): View
    requires |a| <= BUFFER_SIZE && |b| <= BUFFER_SIZE
  {
    Crowded(a, b).(visible := [Data(1, b)], syncNow := true, released := [0], out := map[FIRST := Response.Stream(Answers(a, DATE))])
  }

  lemma CrowdedFacts(a: seq<byte>, b: seq<byte>)
    requires |a| <= BUFFER_SIZE && |b| <= BUFFER_SIZE
    ensures var v := Crowded(a, b);
      && |v.buffers| == BUFFERS_COUNT && |v.buffers[0]| == |v.buffers[1]| == BUFFER_SIZE
      && v.buffers[0][..|a|] == a && v.buffers[1][..|b|] == b && v.out == map[FIRST := []]
  {
    FilledIs(BlankBuffers(), 0, a);
    FilledIs(Filled(BlankBuffers(), 0, a), 1, b);
    hide Log, ReserveWrites, Tag, BlankBuffers, Below, Filled;
  }

  lemma HalfIs(a: seq<byte>, b: seq<byte>, payload: seq<byte>)
    requires |a| <= BUFFER_SIZE && |b| <= BUFFER_SIZE && payload == Response.Stream(Answers(a, DATE))
    ensures var v := Crowded(a, b);
      v.(visible := v.visible[1..], syncNow := true, released := [0], out := v.out[FIRST := v.out[FIRST] + payload]) == HalfAnswered(a, b)
  {
    hide Log, ReserveWrites, Tag, BlankBuffers, Below, Filled, Answers, Response.Stream;
    assert [] + payload == payload;
  }

  lemma AnswersHalf(a: seq<byte>, b: seq<byte>) returns (es: seq<Event>, s: State)
    requires 1 <= |a| <= BUFFER_SIZE && 1 <= |b| <= BUFFER_SIZE && |Response.Stream(Answers(a, DATE))| <= DATA_LAKE_SIZE
    ensures At(es, s, HalfAnswered(a, b))
  {
    CrowdedFacts(a, b);
    hide At, Log, ReserveWrites, Tag, BlankBuffers, Below, Filled, Answers, Response.Stream;
    es, s := Crowds(a, b);
    es, s := DrainedReply(es, s, Crowded(a, b), 0, a);
    HalfIs(a, b, Response.Stream(Answers(a, DATE)));
  }

  /**
   After this run the next completion is a packet of 47 JSON requests while the answers to 50 are pending:
   21728 bytes for an output buffer of 21504, and the source writes them without a check.
   */
  lemma OverflowReachable() returns (es: seq<Event>, s: State)
    ensures Guarantees.Reaches(false, CAP, es, s)
    ensures s.phase == Draining && s.visible != [] && IsData(s.visible[0]) && ClientOf(s.visible[0]) == FIRST
    ensures var c := s.visible[0];
      && Addressable(s, FIRST, c.flags, c.result)
      && var packet := s.buffers[BufOf(c.flags)][..c.result];
      && !Fits(s, FIRST, packet) && |Requests(packet)| == 47
      && |s.out[FIRST]| + |Response.Stream(Answers(packet, s.date))| == 97 * Response.MAX_REPLY
  {
    var a, b := Guarantees.JsonWire(50), Guarantees.JsonWire(47);
    Guarantees.JsonPacket(50, DATE);
    Guarantees.JsonPacket(47, DATE);
    CrowdedFacts(a, b);
    Histories.AnswersDated(b, DATE);
    hide *;
    es, s := AnswersHalf(a, b);
    AtInv(es, s, HalfAnswered(a, b));
    Overflows(s, a, b);
  }

  lemma Overflows(s: State, a: seq<byte>, b: seq<byte>)
    requires Inv(s) && Quiet(s) && |a| <= BUFFER_SIZE && 1 <= |b| <= BUFFER_SIZE && ViewOf(s) == HalfAnswered(a, b)
    ensures s.phase == Draining && s.visible != [] && IsData(s.visible[0]) && ClientOf(s.visible[0]) == FIRST
    ensures var c := s.visible[0];
      && Addressable(s, FIRST, c.flags, c.result) && s.buffers[BufOf(c.flags)][..c.result] == b
      && s.date == DATE && s.out[FIRST] == Response.Stream(Answers(a, DATE))
  {
    CrowdedFacts(a, b);
    DataReads(1, b);
    hide Log, ReserveWrites, BlankBuffers, Below, Filled, Answers, Response.Stream, Core, BufOf, Data, IsData, ClientOf, Safe;
    DrainIsSafe(s);
    ReplyIsSafe(s);
  }

  lemma DataReads(buf: nat, packet: seq<byte>)
    requires buf < 0x1_0000 && |packet| >= 1
    ensures var c := Data(buf, packet);
      IsData(c) && ClientOf(c) == FIRST && BufOf(c.flags) == buf && c.result == |packet|
  {
    hide Tag, Unpack, BufOf;
    TagReads(FIRST, INIT_REQUEST);
    FlagsDecode(buf, 0);
  }

  /** What makes draining a packet safe. */
  lemma ReplyIsSafe(s: State)
    requires s.visible != [] && IsData(s.visible[0]) && s.visible[0].result <= BUFFER_SIZE && Safe(Pop(s), s.visible[0])
    ensures Addressable(s, ClientOf(s.visible[0]), s.visible[0].flags, s.visible[0].result)
  {
    hide Unpack, BufOf;
  }
}
