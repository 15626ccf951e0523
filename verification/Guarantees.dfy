/** What every run of the worker guarantees. */
module Guarantees {
  import opened Bytes
  import opened ServerInternals
  import opened Machine
  import opened Invariants
  import opened Histories
  import opened Preserved
  import opened Runs
  import Response
  import Http
  import Shift
  import Trim

  // ----- runs

  ghost predicate Valid(s: State, es: seq<Event>)
    requires Inv(s)
    decreases |es|
  {
    es == [] || (Enabled(s, es[0]) && (StepKeeps(s, es[0]); Valid(Step(s, es[0]), es[1..])))
  }

  /** The state after a sequence of events, each possible when it happened. */
  ghost function Run(s: State, es: seq<Event>): State
    requires Inv(s) && Valid(s, es)
    decreases |es|
  {
    if es == [] then s else StepKeeps(s, es[0]); Run(Step(s, es[0]), es[1..])
  }

  /** The worker after set-up satisfies every invariant. */
  lemma InitialInv(ubdma: bool, cap: nat)
    ensures Inv(Initial(ubdma, cap))
  {
    hide Tables, Entries, Pool, Buffers, Output, InFlight, BufsOf, SetupEntries, BlankBuffers, ReserveWrites, Below, Zeros;
    var s := Initial(ubdma, cap);
    assert Pending(s) == [];
    InitialTables();
    InitialEntries(ubdma);
    InitialPool();
    InitialBuffers();
    NothingInFlight(s.buffers);
    InitialOutput();
    InitialRest(s);
    CoreFrom(s, []);
  }

  lemma NothingInFlight(buffers: seq<seq<byte>>)
    ensures InFlight([], buffers) == []
  {
  }

  lemma InitialTables()
    ensures Tables(ReserveWrites(RESERVED), RESERVED, map[], map[])
  {
    hide ReserveWrites;
  }

  lemma InitialEntries(ubdma: bool)
    ensures Entries(SetupEntries(), map[], ubdma)
  {
    hide SetupEntries;
  }

  lemma InitialPool()
    ensures Pool(Below(BUFFERS_COUNT), [], [])
  {
    hide Below;
  }

  lemma InitialBuffers()
    ensures Buffers(BlankBuffers(), None)
  {
    hide BlankBuffers;
  }

  lemma InitialOutput()
    ensures Output(SetupEntries(), map[], [], RESERVED)
  {
    hide Queued, SetupEntries;
    forall c: nat ensures Queued(SetupEntries(), c) == [] { QueuedNone(SetupEntries(), c); }
  }

  lemma InitialRest(s: State)
    requires s == Initial(s.ubdma, s.ring.cap)
    ensures Cursors(s.ring, s.syncNow) && QueueOk([], s.fdOf, s.ubdma) && Live([], s.out.Keys)
    ensures Capacity(s.out, s.unflushed) && Counters(s.ubdma, s.published, s.rpsAcc, s.served, s.handled)
    ensures |s.date| == Response.DATE_LEN && ArrivalsOf(s.handled) == [] && s.arrivals == []
  {
    hide SetupEntries, BlankBuffers, ReserveWrites, Below;
  }

  /** `s` is the state of the worker after the events `es`. */
  ghost predicate Reaches(ubdma: bool, cap: nat, es: seq<Event>, s: State) {
    InitialInv(ubdma, cap);
    Valid(Initial(ubdma, cap), es) && s == Run(Initial(ubdma, cap), es)
  }

  /** Every reachable state satisfies every invariant. */
  lemma ReachesInv(ubdma: bool, cap: nat, es: seq<Event>, s: State)
    requires Reaches(ubdma, cap, es, s)
    ensures Inv(s) && s.ubdma == ubdma
  {
    hide Inv, Valid;
    InitialInv(ubdma, cap);
    RunKeeps(Initial(ubdma, cap), es);
  }

  /** No sequence of events breaks an invariant or changes the mode. */
  lemma {:induction false} RunKeeps(s: State, es: seq<Event>)
    requires Inv(s) && Valid(s, es)
    ensures Inv(Run(s, es)) && Run(s, es).ubdma == s.ubdma
    decreases |es|
  {
    hide Inv, Step, Enabled;
    if es != [] {
      StepKeeps(s, es[0]);
      RunKeeps(Step(s, es[0]), es[1..]);
    }
  }

  // ----- output

  /**
   Nothing lost, duplicated, reordered or queued under another client's name: for every live client,
   what is queued in send entries followed by what is pending is the stream of answers to its packets in
   order; for a client that is gone, what was queued is a prefix of it.  Whose socket an entry reaches is
   the subject of Descriptors.
   */
  lemma OutputConserved(cap: nat, es: seq<Event>, s: State, c: nat)
    requires Reaches(false, cap, es, s)
    ensures c in s.out ==> Queued(s.ring.log, c) + s.out[c] == Response.Stream(Owed(s.handled, c))
    ensures c < ID_LIMIT && c !in s.out ==> Queued(s.ring.log, c) <= Response.Stream(Owed(s.handled, c))
  {
    hide Queued, Owed, Response.Stream, OutputOf, Core, Reaches;
    ReachesInv(false, cap, es, s);
    CoreParts(s, Pending(s));
    assert c in s.out ==> c < ID_LIMIT;
    assert c < ID_LIMIT ==> OutputOf(s.ring.log, s.out, s.handled, c);
    OutputMeans(s, c);
  }

  lemma OutputMeans(s: State, c: nat)
    requires c < ID_LIMIT ==> OutputOf(s.ring.log, s.out, s.handled, c)
    ensures c < ID_LIMIT && c in s.out ==> Queued(s.ring.log, c) + s.out[c] == Response.Stream(Owed(s.handled, c))
    ensures c < ID_LIMIT && c !in s.out ==> Queued(s.ring.log, c) <= Response.Stream(Owed(s.handled, c))
  {
  }

  /**
   Every packet the kernel delivered was answered, once and in order of arrival, or still waits;
   and while it waits its buffer keeps the bytes that were delivered.
   */
  lemma DeliveredInOrder(ubdma: bool, cap: nat, es: seq<Event>, s: State)
    requires Reaches(ubdma, cap, es, s)
    ensures s.arrivals == ArrivalsOf(s.handled) + InFlight(Pending(s), s.buffers)
    ensures Pending(s) == [] ==> s.arrivals == ArrivalsOf(s.handled)
  {
    hide Core, Reaches, InFlight;
    ReachesInv(ubdma, cap, es, s);
    CoreParts(s, Pending(s));
    NothingInFlight(s.buffers);
  }

  // ----- the client's side

  /** A date line that cannot be taken for anything else. */
  predicate GoodDate(date: seq<byte>) {
    Response.DateLine(date) && !Response.StartsWith(date, Response.CONTENT_LENGTH)
  }

  ghost predicate GoodDates(es: seq<Event>) {
    forall i :: 0 <= i < |es| && es[i].LoopTop? ==> GoodDate(es[i].date)
  }

  /** All dates of the state are among these. */
  ghost predicate DatesIn(s: State, dates: iset<seq<byte>>) {
    s.date in dates && forall i :: 0 <= i < |s.handled| ==> s.handled[i].date in dates
  }

  lemma {:induction false} DatesStayIn(s: State, es: seq<Event>, dates: iset<seq<byte>>)
    requires Inv(s) && Valid(s, es) && DatesIn(s, dates)
    requires forall i :: 0 <= i < |es| && es[i].LoopTop? ==> es[i].date in dates
    ensures DatesIn(Run(s, es), dates)
    decreases |es|
  {
    hide Inv, Step, Enabled;
    if es != [] {
      StepKeeps(s, es[0]);
      assert forall i :: 0 <= i < |es[1..]| ==> es[1..][i] == es[i + 1];
      DatesStayIn(Step(s, es[0]), es[1..], dates);
    }
  }

  lemma {:induction false} OwedDated(handled: seq<Handled>, c: nat)
    requires forall i :: 0 <= i < |handled| ==> GoodDate(handled[i].date)
    ensures forall i :: 0 <= i < |Owed(handled, c)| ==> GoodDate(Owed(handled, c)[i].date)
  {
    hide GoodDate, Answers;
    if handled != [] {
      var h := handled[|handled| - 1];
      OwedDated(handled[..|handled| - 1], c);
      AnswersDated(h.arrival.packet, h.date);
    }
  }

  lemma BlankDate()
    ensures GoodDate(Zeros(Response.DATE_LEN))
  {
    assert Response.CONTENT_LENGTH[0] == 'C' as int;
  }

  /**
   End to end: with well-formed dates, a live client that reads everything queued and pending for it
   takes it apart into exactly the messages routed for its requests, in order.
   */
  lemma ClientReceives(cap: nat, es: seq<Event>, s: State, c: nat)
    requires Reaches(false, cap, es, s) && GoodDates(es) && c in s.out
    ensures Response.Receive(Queued(s.ring.log, c) + s.out[c]) == Some(Response.Messages(Owed(s.handled, c)))
  {
    hide Inv, Queued, Owed, Response.Receive, Response.Stream, Response.Messages, Response.DateLine, Response.StartsWith;
    OutputConserved(cap, es, s, c);
    BlankDate();
    InitialInv(false, cap);
    DatesStayIn(Initial(false, cap), es, iset date: seq<byte> | GoodDate(date));
    OwedDated(s.handled, c);
    Response.StreamDecodes(Owed(s.handled, c));
  }

  // ----- from arrivals to bytes

  /** Packets as handled under the given dates. */
  function WithDates(arrivals: seq<Arrival>, dates: seq<seq<byte>>): (h: seq<Handled>)
    requires |dates| == |arrivals|
    ensures |h| == |arrivals|
  {
    seq(|arrivals|, i requires 0 <= i < |arrivals| => Handled(arrivals[i], dates[i]))
  }

  /** The date at set-up, or one that a loop top of the run offered. */
  ghost predicate DateSet(es: seq<Event>, date: seq<byte>) {
    date == Zeros(Response.DATE_LEN) || exists i :: 0 <= i < |es| && es[i].LoopTop? && es[i].date == date
  }

  /**
   From arrivals to bytes: when no completion waits, the queued and pending bytes of a live client are
   the answers to exactly the packets that arrived for it, in order of arrival, each under a date the loop had set.
   */
  lemma ArrivalsAnswered(cap: nat, es: seq<Event>, s: State, c: nat)
    requires Reaches(false, cap, es, s) && Pending(s) == [] && c in s.out
    ensures exists dates: seq<seq<byte>> ::
      |dates| == |s.arrivals| && (forall i :: 0 <= i < |dates| ==> DateSet(es, dates[i]))
      && Queued(s.ring.log, c) + s.out[c] == Response.Stream(Owed(WithDates(s.arrivals, dates), c))
  {
    hide Queued, Owed, Response.Stream, InFlight, Inv, Valid, Run;
    OutputConserved(cap, es, s, c);
    InitialInv(false, cap);
    DatesStayIn(Initial(false, cap), es, iset date: seq<byte> | DateSet(es, date));
    DeliveredInOrder(false, cap, es, s);
    var dates := seq(|s.handled|, i requires 0 <= i < |s.handled| => s.handled[i].date);
    assert WithDates(s.arrivals, dates) == s.handled;
  }

  function Bodies(messages: seq<Response.Message>): seq<seq<byte>> {
    if messages == [] then [] else [messages[0].body] + Bodies(messages[1..])
  }

  /** The bodies routed for the requests of a packet. */
  function BodiesFor(packet: seq<byte>): (b: seq<seq<byte>>)
    ensures |b| == |Requests(packet)|
  {
    var rs := Requests(packet);
    seq(|rs|, i requires 0 <= i < |rs| => Response.Body(Response.RouteOf(rs[i].verb, rs[i].path)))
  }

  /** The bodies routed for a client's packets, in order of arrival. */
  function BodiesOwed(arrivals: seq<Arrival>, c: nat): seq<seq<byte>> {
    if arrivals == [] then []
    else
      var a := arrivals[|arrivals| - 1];
      BodiesOwed(arrivals[..|arrivals| - 1], c) + (if a.client == c then BodiesFor(a.packet) else [])
  }

  /**
   End to end from arrivals: what a live client reads has exactly the bodies routed for the packets that
   arrived for it, in order, but for those of packets that still wait.
   */
  lemma ArrivalsReceived(cap: nat, es: seq<Event>, s: State, c: nat)
    requires Reaches(false, cap, es, s) && GoodDates(es) && c in s.out
    ensures var got := Response.Receive(Queued(s.ring.log, c) + s.out[c]);
      && got.Some?
      && Bodies(got.value) + BodiesOwed(InFlight(Pending(s), s.buffers), c) == BodiesOwed(s.arrivals, c)
  {
    hide Reaches, GoodDates, InFlight, Queued, Owed, Response.Receive, Response.Messages, BodiesOwed, Bodies;
    ClientReceives(cap, es, s, c);
    DeliveredInOrder(false, cap, es, s);
    OwedBodies(s.handled, c);
    BodiesOwedConcat(ArrivalsOf(s.handled), InFlight(Pending(s), s.buffers), c);
  }

  lemma {:induction false} BodiesOwedConcat(a: seq<Arrival>, b: seq<Arrival>, c: nat)
    ensures BodiesOwed(a + b, c) == BodiesOwed(a, c) + BodiesOwed(b, c)
    decreases |b|
  {
    hide BodiesFor;
    if b == [] {
      assert a + b == a;
    } else {
      var front, last := b[..|b| - 1], b[|b| - 1];
      assert (a + b)[..|a + b| - 1] == a + front && (a + b)[|a + b| - 1] == last;
      BodiesOwedConcat(a, front, c);
    }
  }

  /** The messages owed carry the bodies routed for the packets handled. */
  lemma {:induction false} OwedBodies(handled: seq<Handled>, c: nat)
    ensures Bodies(Response.Messages(Owed(handled, c))) == BodiesOwed(ArrivalsOf(handled), c)
  {
    hide Answers, BodiesFor, Response.Messages, Bodies;
    if handled == [] {
      NoBodies();
    } else {
      var front, h := handled[..|handled| - 1], handled[|handled| - 1];
      OwedBodies(front, c);
      assert ArrivalsOf(handled)[..|handled| - 1] == ArrivalsOf(front);
      var before := Owed(front, c);
      if h.arrival.client == c {
        MessagesConcat(before, Answers(h.arrival.packet, h.date));
        AnswersBodies(h.arrival.packet, h.date);
      } else {
        assert before + [] == before;
      }
    }
  }

  lemma NoBodies()
    ensures Bodies(Response.Messages([])) == []
  {
  }

  lemma {:induction false} MessagesConcat(a: seq<Response.Answer>, b: seq<Response.Answer>)
    ensures Bodies(Response.Messages(a + b)) == Bodies(Response.Messages(a)) + Bodies(Response.Messages(b))
  {
    hide Response.HeaderLines, Response.Body;
    if a == [] {
      assert a + b == b;
    } else {
      assert (a + b)[0] == a[0] && (a + b)[1..] == a[1..] + b;
      MessagesConcat(a[1..], b);
    }
  }

  lemma AnswersBodies(packet: seq<byte>, date: seq<byte>)
    ensures Bodies(Response.Messages(Answers(packet, date))) == BodiesFor(packet)
  {
    hide Requests, Response.Body, Response.RouteOf;
    MessageBodies(Answers(packet, date));
  }

  lemma {:induction false} MessageBodies(answers: seq<Response.Answer>)
    ensures |Bodies(Response.Messages(answers))| == |answers|
    ensures forall i :: 0 <= i < |answers| ==> Bodies(Response.Messages(answers))[i] == Response.Body(answers[i].route)
  {
    hide Response.HeaderLines, Response.Body;
    if answers != [] {
      MessageBodies(answers[1..]);
    }
  }

  // ----- buffers

  function Elems(s: seq<nat>): set<nat> { set x | x in s }

  lemma {:induction false} NoDupCard(s: seq<nat>)
    requires NoDup(s)
    ensures |Elems(s)| == |s|
  {
    if s != [] {
      var front, last := s[..|s| - 1], s[|s| - 1];
      NoDupCard(front);
      assert last !in Elems(front) by {
        forall i | 0 <= i < |front| ensures front[i] != last { assert front[i] == s[i]; }
      }
      assert s == front + [last];
      assert Elems(s) == Elems(front) + {last};
    }
  }

  /**
   Every buffer is with the kernel, in one waiting completion, or hoarded once for return; the hoard
   never reaches its threshold between steps, so at least 343 buffers are out of the server's hands.
   */
  lemma PoolConserved(ubdma: bool, cap: nat, es: seq<Event>, s: State)
    requires Reaches(ubdma, cap, es, s)
    ensures Pool(s.free, s.released, Pending(s))
    ensures |s.free| + |BufsOf(Pending(s))| + |s.released| == BUFFERS_COUNT
    ensures |s.released| <= 681 && |s.free| + |BufsOf(Pending(s))| >= 343
  {
    hide Core, Reaches, BufsOf;
    ReachesInv(ubdma, cap, es, s);
    CoreParts(s, Pending(s));
    PoolCount(s.free, s.released, Pending(s));
  }

  lemma PoolCount(free: set<nat>, released: seq<nat>, q: seq<Cqe>)
    requires Pool(free, released, q)
    ensures |free| + |BufsOf(q)| + |released| == BUFFERS_COUNT
  {
    hide BufsOf, Below;
    var held := released + BufsOf(q);
    var heldSet := Elems(held);
    BelowCard(BUFFERS_COUNT);
    NoDupCard(held);
    assert free !! heldSet;
    forall b: nat ensures b in free + heldSet <==> b in Below(BUFFERS_COUNT) {}
    assert free + heldSet == Below(BUFFERS_COUNT);
    assert |free + heldSet| == |free| + |heldSet|;
  }

  // ----- connections

  /**
   Output buffers exist for exactly the connections past the reserved slots; the connection count
   of the metrics never underflows; a flush finds the descriptor of every buffer; no close meets
   descriptor 0.
   */
  lemma {:induction false} TablesAgree(ubdma: bool, cap: nat, es: seq<Event>, s: State)
    requires Reaches(ubdma, cap, es, s)
    ensures |s.fds| == RESERVED + |s.out|
    ensures forall c: nat :: c in s.out <==> c in s.fds && c >= RESERVED
    ensures forall c: nat :: c in s.fds ==> s.fds[c] > 0
    ensures forall c: nat :: c < 100 ==> c in s.fds && s.fds[c] == 0xFFFF
    ensures s.out != map[] ==> WidebandSend(s).out == map c | c in s.out :: []
  {
    hide Core, Reaches, SendsFrom;
    ReachesInv(ubdma, cap, es, s);
    CoreParts(s, Pending(s));
    TablesCount(s.fds, s.nextId, s.out, s.fdOf);
  }

  lemma TablesCount(fds: map<nat, int>, nextId: nat, out: map<nat, seq<byte>>, fdOf: map<nat, int>)
    requires Tables(fds, nextId, out, fdOf)
    ensures |fds| == RESERVED + |out|
  {
    hide Below;
    var low := Below(RESERVED);
    BelowCard(RESERVED);
    assert low !! out.Keys;
    assert fds.Keys == low + out.Keys;
    assert |fds.Keys| == |low| + |out.Keys|;
  }

  /** A close calls close on the client's own descriptor, or, for an id that is gone, on 0xFF and changes no table. */
  lemma CloseExact(ubdma: bool, cap: nat, es: seq<Event>, s: State, client: nat)
    requires Reaches(ubdma, cap, es, s)
    ensures var r := CloseConnection(s, client);
      && client !in r.fds && client !in r.out
      && r.closed == s.closed + [if client in s.fds then s.fds[client] else 0xFF]
      && (client !in s.fds ==> r.fds == s.fds && r.out == s.out)
  {
    hide Core, Reaches;
    ReachesInv(ubdma, cap, es, s);
    CoreParts(s, Pending(s));
    assert client !in s.fds ==> s.fds - {client} == s.fds && s.out - {client} == s.out;
  }

  // ----- bookkeeping

  /** At the loop head an entry that is pushed but not synced has the flag up; past the sync point there is none. */
  lemma SyncBookkeeping(ubdma: bool, cap: nat, es: seq<Event>, s: State)
    requires Reaches(ubdma, cap, es, s)
    ensures s.ring.synced < |s.ring.log| ==> s.syncNow
    ensures s.phase == Synced ==> s.ring.synced == |s.ring.log| && !s.syncNow
    ensures s.phase == Head ==> s.visible == []
  {
    hide Core, Reaches;
    ReachesInv(ubdma, cap, es, s);
    CoreParts(s, Pending(s));
  }

  /** Published rates and the running one add up to the requests served; without UBDMA, to those found in the packets handled. */
  lemma RatesConserved(ubdma: bool, cap: nat, es: seq<Event>, s: State)
    requires Reaches(ubdma, cap, es, s)
    ensures s.published + s.rpsAcc == s.served
    ensures !ubdma ==> s.published + s.rpsAcc == Total(s.handled)
  {
    hide Core, Reaches, Total;
    ReachesInv(ubdma, cap, es, s);
    CoreParts(s, Pending(s));
  }

  /** Everything the server packs unpacks to what it packed: a real client's id, no buffer, the operation code. */
  lemma UserDataSurvives(ubdma: bool, cap: nat, es: seq<Event>, s: State, i: nat)
    requires Reaches(ubdma, cap, es, s) && i < |s.ring.log|
    ensures var e := s.ring.log[i];
      match e.op
      case AcceptMulti => e.userData == CODE_ACCEPT
      case ProvideBuffer(_) => e.userData == BUFFER_REGISTER_CODE
      case PollAdd(fd) => ubdma && Names(s, e.userData, POLL_EVENT, fd)
      case RecvMulti(fd) => Names(s, e.userData, INIT_REQUEST, fd)
      case Send(fd, _) => Names(s, e.userData, SEND_EVENT, fd)
  {
    hide Core, Reaches, Tag, Unpack;
    ReachesInv(ubdma, cap, es, s);
    CoreParts(s, Pending(s));
    assert EntryOk(s.ring.log[i], s.fdOf, s.ubdma);
  }

  /** User data that reads as an operation on the client that was accepted on `fd`. */
  ghost predicate Names(s: State, userData: nat, code: u16, fd: int) {
    && userData >= REQ_RESP_OFFSET
    && var u := Unpack(userData);
      && RESERVED <= u.clientId < s.nextId
      && u == UserData(u.clientId, 0, code)
      && u.clientId in s.fdOf && s.fdOf[u.clientId] == fd
      && (u.clientId in s.out ==> u.clientId in s.fds && s.fds[u.clientId] == fd)
  }

  // ----- capacity

  /**
   Pending bytes fit the output buffer in every reachable state: a reply is taken only when it fits, and nothing
   else can make them too many.  The answers to any packet fit the hot cache.
   */
  lemma {:induction false} CapacityHeld(ubdma: bool, cap: nat, es: seq<Event>, s: State, c: nat, packet: seq<byte>)
    requires Reaches(ubdma, cap, es, s)
    ensures c in s.out ==> |s.out[c]| <= DATA_LAKE_SIZE
    ensures |Response.Stream(Answers(packet, s.date))| <= 11200 < 2 * BUFFER_SIZE
  {
    hide Core, Reaches, Answers, Response.Stream;
    ReachesInv(ubdma, cap, es, s);
    CoreParts(s, Pending(s));
    AnswersDated(packet, s.date);
    StreamBound(Answers(packet, s.date));
  }

  /** A request for the JSON route, 40 bytes on the wire. */
  function JsonRequest(): Http.WireRequest {
    Http.WireRequest(false, Ascii("/json"), Zeros(30))
  }

  const MAX_UNFLUSHED: nat := 96

  /** While no more than 96 requests of a client are unflushed, those of the next packet included, its answers fit. */
  lemma FewUnflushedFit(ubdma: bool, cap: nat, es: seq<Event>, s: State, c: nat, packet: seq<byte>)
    requires Reaches(ubdma, cap, es, s) && c in s.out
    ensures c in s.unflushed
    ensures s.unflushed[c] + |Requests(packet)| <= MAX_UNFLUSHED ==> Fits(s, c, packet)
  {
    hide Core, Reaches, Answers, Requests, Response.Stream;
    ReachesInv(ubdma, cap, es, s);
    CoreParts(s, Pending(s));
    AnswersDated(packet, s.date);
    StreamBound(Answers(packet, s.date));
  }

  predicate Dated(answers: seq<Response.Answer>) {
    forall i :: 0 <= i < |answers| ==> |answers[i].date| == Response.DATE_LEN
  }

  /** Every n answers fit an empty output buffer if and only if n is at most 96. */
  lemma AnswersFitIff(n: nat)
    ensures (forall a: seq<Response.Answer> :: |a| == n && Dated(a) ==> |Response.Stream(a)| <= DATA_LAKE_SIZE)
      <==> n <= MAX_UNFLUSHED
  {
    hide Response.Stream;
    forall a: seq<Response.Answer> | |a| == n && Dated(a) ensures |Response.Stream(a)| <= Response.MAX_REPLY * n {
      StreamBound(a);
    }
    var json := seq(n, _ => Response.Answer(Response.Json, Zeros(Response.DATE_LEN)));
    JsonStream(json, Zeros(Response.DATE_LEN));
    assert Dated(json);
  }

  /** A packet of at most fifty JSON requests is answered with 224 bytes for each. */
  lemma JsonPacket(n: nat, date: seq<byte>)
    requires n <= MAX_REQUESTS && |date| == Response.DATE_LEN
    ensures |JsonWire(n)| == 40 * n <= BUFFER_SIZE
    ensures |Answers(JsonWire(n), date)| == n && |Response.Stream(Answers(JsonWire(n), date))| == Response.MAX_REPLY * n
  {
    hide Http.Wire, Http.Views, Http.Parse, Http.Sent, Response.Stream, Response.Reply, Response.RouteOf;
    var reqs := seq(n, _ => JsonRequest());
    JsonRequestFits();
    Http.CleanRoundTrip(reqs, MAX_REQUESTS);
    WireLength(reqs);
    SentRoutes(reqs);
    var answers := Answers(JsonWire(n), date);
    assert Requests(JsonWire(n)) == Http.Sent(reqs);
    assert forall i :: 0 <= i < |answers| ==> answers[i] == Response.Answer(Response.Json, date);
    JsonStream(answers, date);
  }

  /** A packet of n JSON requests. */
  function JsonWire(n: nat): seq<byte> { Http.Wire(seq(n, _ => JsonRequest())) }

  lemma JsonRequestFits()
    ensures JsonRequest().Fits() && Http.Clean(JsonRequest()) && |JsonRequest().Bytes()| == 40
  {
    assert Ascii("/json") == ['/' as int, 'j' as int, 's' as int, 'o' as int, 'n' as int];
  }

  lemma {:induction false} WireLength(reqs: seq<Http.WireRequest>)
    requires forall i :: 0 <= i < |reqs| ==> reqs[i] == JsonRequest()
    ensures |Http.Wire(reqs)| == 40 * |reqs|
  {
    JsonRequestFits();
    hide JsonRequest, Http.WireRequest.Bytes, Http.WireRequest.Fits, Http.Clean;
    if reqs != [] {
      WireLength(reqs[1..]);
    }
  }

  lemma SentRoutes(reqs: seq<Http.WireRequest>)
    requires forall i :: 0 <= i < |reqs| ==> reqs[i] == JsonRequest()
    ensures forall i :: 0 <= i < |reqs| ==>
      Response.RouteOf(Http.Sent(reqs)[i].verb, Http.Sent(reqs)[i].path) == Response.Json
  {
    assert Ascii("/json") != Ascii("/plaintext") by { assert |Ascii("/json")| == 5; assert |Ascii("/plaintext")| == 10; }
  }

  lemma {:induction false} JsonStream(answers: seq<Response.Answer>, date: seq<byte>)
    requires |date| == Response.DATE_LEN
    requires forall i :: 0 <= i < |answers| ==> answers[i] == Response.Answer(Response.Json, date)
    ensures |Response.Stream(answers)| == Response.MAX_REPLY * |answers|
  {
    hide Response.Reply;
    if answers != [] {
      Response.ReplyLength(Response.Json, date);
      JsonStream(answers[1..], date);
    }
  }

  // ----- from requests on the wire to answers

  /** A pipeline of at most fifty requests that arrives as one packet is owed exactly its requests' answers, in order. */
  lemma PipelineAnswered(reqs: seq<Http.WireRequest>, date: seq<byte>)
    requires |reqs| <= MAX_REQUESTS
    requires forall i :: 0 <= i < |reqs| ==> reqs[i].Fits()
    requires reqs != [] ==> |reqs[|reqs| - 1].Bytes()| >= 34
    requires forall p: nat :: Http.Scanner.IsStart(Http.Wire(reqs), p) ==> p in Http.Offsets(reqs, 0)
    ensures var answers := Answers(Http.Wire(reqs), date);
      |answers| == |reqs|
      && forall i :: 0 <= i < |reqs| ==>
        answers[i] == Response.Answer(Response.RouteOf(reqs[i].Verb(), reqs[i].path), date)
  {
    hide Http.Wire, Http.Offsets, Http.Views, Http.Parse, Http.WireRequest.Bytes, Http.WireRequest.Fits, Response.RouteOf;
    Http.PipelinedRoundTrip(reqs, MAX_REQUESTS);
  }

  // ----- requests whose path slice leaves the packet

  /** Whatever bytes lie behind the packet, such a request is answered as not found. */
  lemma OverrunNotRouted(packet: seq<byte>, e: Http.Entry, beyond: seq<byte>)
    requires e in Http.Parse(packet, MAX_REQUESTS) && |packet| < e.pathAt + e.pathLen
    ensures Response.RouteOf(Http.View(packet, e).verb, beyond) == Response.NotFound
  {
    Http.GetPathInside(packet, MAX_REQUESTS, e);
    assert |Http.View(packet, e).verb| == 31;
    assert |Ascii("GET")| == 3;
  }

  // ----- UBDMA

  /**
   After a reply in UBDMA mode the next poll sees exactly the packet if and only if the packet starts with
   a nonzero byte and either the buffer's last byte was zero, so that the packet was moved to its end, or the
   packet fills the buffer; and then it finds the same requests.
   */
  lemma PollSeesPacket(s: State, flags: nat, client: nat, result: nat)
    requires s.ubdma && Addressable(s, client, flags, result) && result >= 1
    requires |s.buffers[BufOf(flags)]| == BUFFER_SIZE
    ensures var r, b := Reply1(s, flags, client, result), s.buffers[BufOf(flags)];
      var packet := b[..result];
      && r.lastBuf == Some(BufOf(flags)) && BufOf(flags) < |r.buffers|
      && var seen := Trim.TrimLeft(r.buffers[r.lastBuf.value]);
      && (seen == packet <==> packet[0] != 0 && (b[BUFFER_SIZE - 1] == 0 || result == BUFFER_SIZE))
      && (seen == packet ==> Answers(seen, s.date) == Answers(packet, s.date))
  {
    hide BufOf, Answers, Response.Stream, Trim.TrimLeft, Shift.RightAligned;
    var b := s.buffers[BufOf(flags)];
    if b[BUFFER_SIZE - 1] == 0 {
      Shift.ShiftedViewParses(b, result, MAX_REQUESTS);
    } else {
      Shift.StaleViewIff(b, result);
    }
  }

  /** A poll answers exactly when a buffer was seen that reads as more than five requests, and a live client has nothing pending. */
  lemma PollAnswersIff(cap: nat, es: seq<Event>, s: State, client: nat)
    requires Reaches(true, cap, es, s)
    ensures s.lastBuf.Some? ==> s.lastBuf.value < |s.buffers|
    ensures var r := Ubdma(s, client);
      && (forall c: nat :: c in s.out && c != client ==> c in r.out && r.out[c] == s.out[c])
      && (r.out != s.out <==>
           s.lastBuf.Some? && client in s.out && s.out[client] == []
           && |Requests(Trim.TrimLeft(s.buffers[s.lastBuf.value]))| > 5)
      && (r.out != s.out ==> r.out[client] == Response.Stream(Answers(Trim.TrimLeft(s.buffers[s.lastBuf.value]), s.date)))
  {
    hide Core, Reaches, Answers, Requests, Response.Stream, Trim.TrimLeft;
    ReachesInv(true, cap, es, s);
    CoreParts(s, Pending(s));
    if s.lastBuf.Some? {
      var seen := Trim.TrimLeft(s.buffers[s.lastBuf.value]);
      AnswersDated(seen, s.date);
      StreamBound(Answers(seen, s.date));
    }
  }
}
