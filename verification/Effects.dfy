/**
 What the steps of the loop do, field by field and entry by entry: on the log of the ring, the tables and the
 counters themselves, for every reachable state.
 */
module Effects {
  import opened Bytes
  import opened ServerInternals
  import opened Machine
  import opened Invariants
  import opened Histories
  import opened Preserved
  import opened Runs
  import Response
  import Descriptors
  import Trim
  import Shift

  // ----- returning buffers

  /**
   A return of the hoard appends one entry a buffer, in order, naming that buffer; the kernel first takes what was
   synced before, which is how far the server then sees it, and in the end takes everything.
   */
  lemma ReleaseEntries(s: State)
    ensures var r := ReleaseBuffers(s);
      && r.released == [] && |r.ring.log| == |s.ring.log| + |s.released|
      && r.ring.log[..|s.ring.log|] == s.ring.log
      && (forall i :: 0 <= i < |s.released| ==> r.ring.log[|s.ring.log| + i] == Sqe(ProvideBuffer(s.released[i]), 0xFAB))
      && (s.released != [] ==> r.ring.consumed == r.ring.synced == |r.ring.log| && r.ring.head == s.ring.synced)
      && (s.released == [] ==> r == s)
  {
  }

  // ----- accepting

  /** The entries an accept can push. */
  function PollEntry(id: nat, fd: int): Sqe { Sqe(PollAdd(fd), Tag(id, 0xAAA)) }

  function ReceiveEntry(id: nat, fd: int): Sqe { Sqe(RecvMulti(fd), Tag(id, 0xCCA)) }

  /**
   An accept enters the tables under the next id.  In UBDMA mode it appends a poll, syncs, and appends a receive,
   and otherwise a receive alone; an entry that finds no room is lost.
   */
  lemma AcceptEntries(s: State, fd: int)
    requires fd > 0
    ensures var r, id, q := ProcessEntryAccept(s, fd), s.nextId, s.ring;
      && r.fds == s.fds[id := fd] && r.out == s.out[id := []] && r.nextId == id + 1 && r.syncNow
      && var polled := q.log + (if s.ubdma && q.Room() > 0 then [PollEntry(id, fd)] else []);
      && var head := if s.ubdma then q.consumed else q.head;
      && r.ring == q.(log := polled + (if q.cap - (|polled| - head) > 0 then [ReceiveEntry(id, fd)] else []),
                      synced := if s.ubdma then |polled| else q.synced, head := head)
  {
    hide Tag;
    assert s.ring.log + [] == s.ring.log;
  }

  /** With room for both, nothing is lost. */
  lemma AcceptWithRoom(s: State, fd: int)
    requires fd > 0 && s.ring.Room() >= 2 && s.ring.head <= s.ring.consumed
    ensures var r, id := ProcessEntryAccept(s, fd), s.nextId;
      && r.ring.log == s.ring.log + (if s.ubdma then [PollEntry(id, fd), ReceiveEntry(id, fd)] else [ReceiveEntry(id, fd)])
      && (s.ubdma ==> r.ring.synced == |s.ring.log| + 1)
  {
    hide Tag;
    AcceptEntries(s, fd);
  }

  // ----- the next completion

  /** The closed client leaves the tables, its descriptor, or 0xFF when the id is gone, is closed, and nothing else changes. */
  ghost predicate Closed(r: State, s: State, client: nat) {
    var fd := if client in s.fds then s.fds[client] else 0xFF;
    r == s.(fds := s.fds - {client}, out := s.out - {client}, closed := s.closed + [fd], openFds := s.openFds - {fd})
  }

  /** The answers to a packet are appended for its client, its buffer joins the hoard, and 682 hoarded buffers go back at once. */
  ghost predicate Replied(r: State, s: State, client: nat, b: nat, len: nat)
    requires b < |s.buffers| && len <= |s.buffers[b]| == BUFFER_SIZE
  {
    var packet := s.buffers[b][..len];
    var shifted := s.buffers[b := Zeros(BUFFER_SIZE - len) + packet];
    && client in s.out && r.out == s.out[client := s.out[client] + Response.Stream(Answers(packet, s.date))]
    && r.handled == s.handled + [Handled(Arrival(client, packet), s.date)]
    && r.rpsAcc == s.rpsAcc + |Requests(packet)| && r.served == s.served + |Requests(packet)|
    && r.released == (if |s.released| == 681 then [] else s.released + [b])
    && r.free == (if |s.released| == 681 then s.free + (set x | x in s.released + [b]) else s.free)
    && r.lastBuf == Some(b)
    && r.buffers == (if s.ubdma && s.buffers[b][BUFFER_SIZE - 1] == 0 then shifted else s.buffers)
    && r.fds == s.fds && r.nextId == s.nextId && r.rps == s.rps && r.openFds == s.openFds && r.closed == s.closed
    && (|s.released| != 681 ==> r.syncNow && r.ring == s.ring)
  }

  /** The last buffer seen, trimmed, is answered if it holds more than five requests and the client has nothing pending. */
  ghost predicate Polled(r: State, s: State, client: nat) {
    if s.lastBuf.Some? && s.lastBuf.value < |s.buffers| && client in s.out && s.out[client] == []
       && |Requests(Trim.TrimLeft(s.buffers[s.lastBuf.value]))| > 5
    then
      var seen := Trim.TrimLeft(s.buffers[s.lastBuf.value]);
      && r.out == s.out[client := Response.Stream(Answers(seen, s.date))]
      && r.rpsAcc == s.rpsAcc + |Requests(seen)| && r.served == s.served + |Requests(seen)| && r.syncNow
      && r.ring == s.ring && r.fds == s.fds && r.buffers == s.buffers && r.released == s.released && r.handled == s.handled
    else r == s
  }

  /** The state after a completion `c` of entry `e` was taken off the queue and processed in state `s`. */
  ghost predicate Effect(r: State, s: State, e: Sqe, c: Cqe) {
    var client, result, b := Descriptors.EntryClient(e), c.result, BufOf(c.flags);
    if result == -104 || (result == 0 && !e.op.Send?) then Closed(r, s, client)
    else if result == -105 then r == ReleaseBuffers(s)
    else if result > 0 && e.op.RecvMulti? then
      b < |s.buffers| && result <= |s.buffers[b]| == BUFFER_SIZE && Replied(r, s, client, b, result)
    else if result > 0 && e.op.PollAdd? then Polled(r, s, client)
    else r == s
  }

  /**
   What a completion of a connection's entry does: a reset, or an end of anything but a send, closes the client; a
   lack of buffers returns the hoard; a received packet is answered; a readiness event is looked into; and any other
   result, whichever the operation, changes nothing at all.
   */
  lemma CompletionTable(s: State, i: nat)
    requires Inv(s) && CanDrain(s) && i < |s.ring.log| && Descriptors.OnConnection(s.ring.log[i])
    requires s.visible[0].userData == s.ring.log[i].userData
    ensures Effect(Step(s, LoopDrain), Pop(s), s.ring.log[i], s.visible[0])
  {
    hide Core, CanProcess, ProcessEntry, DispatchOf, Safe, BufOf, Closed, Replied, Polled, CqeOk;
    var e, c := s.ring.log[i], s.visible[0];
    DrainKeeps(s);
    CoreParts(s, Pending(s));
    EntryDecodes(s, i, c.result, c.flags);
    EntryActs(s, i);
    SameDispatch(s, c);
    PendingHead(s);
    var s1, client := Pop(s), Descriptors.EntryClient(e);
    if c.result == -104 || (c.result == 0 && !e.op.Send?) {
      CloseEffect(s1, c, client);
    } else if c.result == -105 {
      ReleaseEffect(s1, c);
    } else if c.result > 0 && e.op.RecvMulti? {
      PopCore(s, Pending(s));
      CoreParts(s1, Pending(s));
      DropQueue(c, Pending(s1), s1.fdOf, s1.ubdma);
      ReplyMeansData(s1, c);
      ReplyEffect(s1, c, client);
    } else if c.result > 0 && e.op.PollAdd? {
      PollEffect(s1, c, client);
    } else {
      NothingEffect(s1, c);
    }
  }

  /** A completion of a multi-accept takes in the connection it names, if any; an acknowledged offer changes nothing. */
  lemma OtherCompletions(s: State)
    requires Inv(s) && CanDrain(s)
    ensures s.visible[0].userData == 0xA ==>
      Step(s, LoopDrain) == if s.visible[0].result > 0 then ProcessEntryAccept(Pop(s), s.visible[0].result) else Pop(s)
    ensures s.visible[0].userData == 0xFAB ==> Step(s, LoopDrain) == Pop(s)
  {
    hide Core, CanProcess, ProcessEntryAccept;
    DrainKeeps(s);
    AcceptNothing(Pop(s), s.visible[0].result);
  }

  lemma AcceptNothing(s: State, fd: int)
    ensures fd <= 0 ==> ProcessEntryAccept(s, fd) == s
  {
  }

  /** The action that the result of an entry asks for. */
  lemma EntryActs(s: State, i: nat)
    requires Entries(s.ring.log, s.fdOf, s.ubdma) && Tables(s.fds, s.nextId, s.out, s.fdOf)
    requires i < |s.ring.log| && Descriptors.OnConnection(s.ring.log[i])
    requires s.visible != [] && s.visible[0].userData == s.ring.log[i].userData
    ensures var e, c := s.ring.log[i], s.visible[0];
      var client, result := Descriptors.EntryClient(e), c.result;
      && client >= RESERVED
      && DispatchOf(s, c) == Response(
        if result == -104 || (result == 0 && !e.op.Send?) then Close(client)
        else if result == -105 then Release
        else if result > 0 && e.op.RecvMulti? then Reply(client)
        else if result > 0 && e.op.PollAdd? then Poll(client)
        else Nothing)
  {
    hide Tag, Unpack;
    assert EntryOk(s.ring.log[i], s.fdOf, s.ubdma);
  }

  lemma CloseEffect(s: State, c: Cqe, client: nat)
    requires Safe(s, c) && DispatchOf(s, c) == Response(Close(client)) && (client in s.fds ==> s.fds[client] > 0)
    ensures Closed(ProcessEntry(s, c), s, client)
  {
    hide DispatchOf;
    var cfd := if client in s.fds then s.fds[client] else 0xFF;
    assert (set fd | fd in [cfd]) == {cfd};
  }

  lemma ReleaseEffect(s: State, c: Cqe)
    requires Safe(s, c) && DispatchOf(s, c) == Response(Release)
    ensures ProcessEntry(s, c) == ReleaseBuffers(s)
  {
    hide DispatchOf;
  }

  lemma NothingEffect(s: State, c: Cqe)
    requires Safe(s, c) && DispatchOf(s, c) == Response(Nothing)
    ensures ProcessEntry(s, c) == s
  {
    hide DispatchOf;
  }

  lemma PollEffect(s: State, c: Cqe, client: nat)
    requires Safe(s, c) && DispatchOf(s, c) == Response(Poll(client))
    ensures Polled(ProcessEntry(s, c), s, client)
  {
    hide DispatchOf, Trim.TrimLeft, Requests, Response.Stream;
    if s.lastBuf.Some? { AnswersDated(Trim.TrimLeft(s.buffers[s.lastBuf.value]), s.date); }
  }

  lemma ReplyEffect(s: State, c: Cqe, client: nat)
    requires Safe(s, c) && DispatchOf(s, c) == Response(Reply(client)) && Buffers(s.buffers, s.lastBuf)
    requires 0 < c.result <= BUFFER_SIZE && BufOf(c.flags) < BUFFERS_COUNT
    ensures BufOf(c.flags) < |s.buffers| && c.result <= |s.buffers[BufOf(c.flags)]| == BUFFER_SIZE
    ensures Replied(ProcessEntry(s, c), s, client, BufOf(c.flags), c.result)
  {
    hide DispatchOf, Requests, Response.Stream, BufOf, Returned;
    var b := BufOf(c.flags);
    AnswersDated(s.buffers[b][..c.result], s.date);
    assert Shift.RightAligned(s.buffers[b], c.result) == Zeros(BUFFER_SIZE - c.result) + s.buffers[b][..c.result];
  }

  // ----- the loop's top, wait and end

  /** The client's entry is among these. */
  ghost predicate SentFor(sends: seq<Sqe>, c: nat) { exists e :: e in sends && Descriptors.EntryClient(e) == c }

  /** One send a client from `id` on with pending bytes, in the order of the ids, of exactly those bytes on the client's descriptor. */
  ghost predicate Flushes(sends: seq<Sqe>, out: map<nat, seq<byte>>, fds: map<nat, int>, id: nat) {
    && (forall e :: e in sends ==>
          var c := Descriptors.EntryClient(e);
          id <= c && c in out && c in fds && out[c] != [] && e == Sqe(Send(fds[c], out[c]), Tag(c, 0xCCC)))
    && (forall c: nat :: c in out && c >= id && out[c] != [] ==> SentFor(sends, c))
    && (forall i, j :: 0 <= i < j < |sends| ==> Descriptors.EntryClient(sends[i]) < Descriptors.EntryClient(sends[j]))
  }

  lemma {:induction false} SendsFlush(out: map<nat, seq<byte>>, fds: map<nat, int>, id: nat, end: nat)
    requires 1 <= id && end <= ID_LIMIT && forall c: nat :: c in out ==> c in fds && c < end
    ensures Flushes(SendsFrom(out, fds, id, end), out, fds, id)
    decreases end - id
  {
    hide Tag, Descriptors.EntryClient, Flushes;
    if id < end {
      SendsFlush(out, fds, id + 1, end);
      var rest := SendsFrom(out, fds, id + 1, end);
      if id in out && out[id] != [] {
        var e := Sqe(Send(fds[id], out[id]), Tag(id, SEND_EVENT));
        Descriptors.TagClient(id, SEND_EVENT, e);
        FlushCons(e, rest, out, fds, id);
      } else {
        FlushSkip(rest, out, fds, id);
        assert [] + rest == rest;
      }
    } else {
      NoFlush(out, fds, id);
    }
  }

  lemma NoFlush(out: map<nat, seq<byte>>, fds: map<nat, int>, id: nat)
    requires forall c: nat :: c in out ==> c < id
    ensures Flushes([], out, fds, id)
  {
  }

  lemma FlushSkip(rest: seq<Sqe>, out: map<nat, seq<byte>>, fds: map<nat, int>, id: nat)
    requires Flushes(rest, out, fds, id + 1) && (id in out ==> out[id] == [])
    ensures Flushes(rest, out, fds, id)
  {
    hide Tag, Descriptors.EntryClient, SentFor;
  }

  lemma FlushCons(e: Sqe, rest: seq<Sqe>, out: map<nat, seq<byte>>, fds: map<nat, int>, id: nat)
    requires Flushes(rest, out, fds, id + 1) && id in out && id in fds && out[id] != []
    requires e == Sqe(Send(fds[id], out[id]), Tag(id, 0xCCC)) && Descriptors.EntryClient(e) == id
    ensures Flushes([e] + rest, out, fds, id)
  {
    hide Tag, Descriptors.EntryClient;
    var sends := [e] + rest;
    assert sends[0] == e && forall f :: f in sends <==> f == e || f in rest;
    forall i, j | 0 <= i < j < |sends| ensures Descriptors.EntryClient(sends[i]) < Descriptors.EntryClient(sends[j]) {
      assert sends[j] == rest[j - 1] && rest[j - 1] in rest;
      if i > 0 { assert sends[i] == rest[i - 1]; }
    }
    forall c: nat | c in out && c >= id && out[c] != [] ensures SentFor(sends, c) {
      if c != id {
        assert SentFor(rest, c);
      }
    }
  }

  /** Everything pending is flushed and synced, and a new second publishes the rate and renews the date. */
  ghost predicate Topped(r: State, s: State, clock: int, date: seq<byte>) {
    && |s.ring.log| <= |r.ring.log| && r.ring.log[..|s.ring.log|] == s.ring.log
    && Flushes(r.ring.log[|s.ring.log|..], s.out, s.fds, RESERVED)
    && r.out.Keys == s.out.Keys && (forall c: nat :: c in r.out ==> r.out[c] == [])
    && r.ring.synced == |r.ring.log| && !r.syncNow && r.ring.consumed == s.ring.consumed
    && (s.syncNow || s.out != map[] ==> r.ring.head == s.ring.consumed)
    && r.clock == clock && r.date == (if clock == s.clock then s.date else date)
    && r.rps == (if clock == s.clock then s.rps else s.rpsAcc)
    && r.rpsAcc == (if clock == s.clock then s.rpsAcc else 0)
    && r.published == (if clock == s.clock then s.published else s.published + s.rpsAcc)
  }

  /** The loop's top in every reachable state, in both modes. */
  lemma TopEffect(s: State, clock: int, date: seq<byte>)
    requires Inv(s) && s.phase == Head
    ensures Topped(Top(s, clock, date), s, clock, date)
  {
    hide Core, SendsFrom, Flushes, Metrics, Emptied, Settled;
    CoreParts(s, Pending(s));
    Descriptors.MetricsRing(s, clock, date);
    RatesOf(s, clock, date);
    var s1 := Metrics(s, clock, date);
    FlushEffect(s1);
    FlushFrame(s1);
    FlushRates(s1);
    TopIs(s, s1, clock, date);
  }

  lemma RatesOf(s: State, clock: int, date: seq<byte>)
    ensures var r := Metrics(s, clock, date);
      && r.clock == clock && r.date == (if clock == s.clock then s.date else date)
      && r.rps == (if clock == s.clock then s.rps else s.rpsAcc)
      && r.rpsAcc == (if clock == s.clock then s.rpsAcc else 0)
      && r.published == (if clock == s.clock then s.published else s.published + s.rpsAcc)
  {
    if clock == s.clock {
      assert Metrics(s, clock, date) == s;
    }
  }

  lemma FlushRates(s: State)
    ensures var r := WidebandSend(s);
      r.clock == s.clock && r.date == s.date && r.rps == s.rps && r.rpsAcc == s.rpsAcc && r.published == s.published
  {
    hide SendsFrom, Emptied, Settled;
  }

  lemma FlushEffect(s: State)
    requires Tables(s.fds, s.nextId, s.out, s.fdOf) && Cursors(s.ring, s.syncNow)
    ensures var r := WidebandSend(s);
      && |s.ring.log| <= |r.ring.log| && r.ring.log[..|s.ring.log|] == s.ring.log
      && Flushes(r.ring.log[|s.ring.log|..], s.out, s.fds, RESERVED)
      && r.out.Keys == s.out.Keys && (forall c: nat :: c in r.out ==> r.out[c] == [])
      && r.syncNow == (s.syncNow || s.out != map[]) && r.ring.consumed == s.ring.consumed && r.ring.synced == s.ring.synced
      && r.ring.head == s.ring.head && Cursors(r.ring, r.syncNow)
  {
    hide SendsFrom;
    SkipReserved(s.out, s.fds, 0, s.nextId);
    SendsFlush(s.out, s.fds, RESERVED, s.nextId);
    if s.out != map[] {
      assert (s.ring.log + Sends(s))[|s.ring.log|..] == Sends(s);
    } else {
      assert s.ring.log[|s.ring.log|..] == [];
    }
  }

  lemma TopIs(s: State, s1: State, clock: int, date: seq<byte>)
    requires s1 == Metrics(s, clock, date) && s1.visible == []
    ensures var r, s2 := Top(s, clock, date), WidebandSend(s1);
      && r.out == s2.out && r.clock == s2.clock && r.date == s2.date && r.rps == s2.rps && r.rpsAcc == s2.rpsAcc
      && r.published == s2.published && !r.syncNow
      && r.ring == (if s2.syncNow then s2.ring.Sync() else s2.ring)
  {
    hide Metrics, WidebandSend;
  }

  /**
   The wait shows all posted completions; it makes the kernel take everything pushed if there are none, or if the
   ring as the server sees it is within four entries of its capacity, and otherwise lets it be.
   */
  lemma WaitEffect(s: State)
    requires Inv(s) && s.phase == Synced
    ensures var r := Wait(s);
      && r.visible == s.posted && r.posted == [] && r.ring.log == s.ring.log
      && r.ring.consumed ==
         if s.posted == [] || |s.ring.log| - s.ring.head >= s.ring.cap - 4 then |s.ring.log| else s.ring.consumed
  {
    hide Core;
    CoreParts(s, Pending(s));
  }
}
