/** Facts about the recursive readings of queues, rings and histories that the invariants use. */
module Histories {
  import opened Bytes
  import opened ServerInternals
  import opened Machine
  import opened Invariants
  import Response

  // ----- completion queue

  lemma Consed(c: Cqe, q: seq<Cqe>, buffers: seq<seq<byte>>)
    ensures BufsOf([c] + q) == (if IsData(c) then [BufOf(c.flags)] else []) + BufsOf(q)
    ensures InFlight([c] + q, buffers) == (if IsData(c) then [ArrivalOf(c, buffers)] else []) + InFlight(q, buffers)
  {
    hide IsData, ArrivalOf;
    assert ([c] + q)[1..] == q;
  }

  lemma {:induction false} BufsSnoc(q: seq<Cqe>, c: Cqe)
    ensures BufsOf(q + [c]) == BufsOf(q) + (if IsData(c) then [BufOf(c.flags)] else [])
  {
    hide IsData;
    if q == [] {
      assert [c][1..] == [] && [] + [c] == [c];
    } else {
      assert (q + [c])[0] == q[0] && (q + [c])[1..] == q[1..] + [c];
      BufsSnoc(q[1..], c);
    }
  }

  lemma {:induction false} InFlightSnoc(q: seq<Cqe>, c: Cqe, buffers: seq<seq<byte>>)
    ensures InFlight(q + [c], buffers) == InFlight(q, buffers) + (if IsData(c) then [ArrivalOf(c, buffers)] else [])
  {
    hide IsData, ArrivalOf;
    if q == [] {
      assert [c][1..] == [] && [] + [c] == [c];
    } else {
      assert (q + [c])[0] == q[0] && (q + [c])[1..] == q[1..] + [c];
      InFlightSnoc(q[1..], c, buffers);
    }
  }

  /** Writing a buffer that no waiting completion holds disturbs no waiting packet. */
  lemma {:induction false} InFlightFrame(q: seq<Cqe>, buffers: seq<seq<byte>>, b: nat, content: seq<byte>)
    requires b < |buffers| && b !in BufsOf(q)
    ensures InFlight(q, buffers[b := content]) == InFlight(q, buffers)
  {
    if q != [] {
      InFlightFrame(q[1..], buffers, b, content);
      if IsData(q[0]) {
        assert BufsOf(q)[0] == BufOf(q[0].flags);
      }
    }
  }

  // ----- send entries

  lemma QueuedSnoc(sq: seq<Sqe>, e: Sqe, c: nat)
    ensures Queued(sq + [e], c) == Queued(sq, c) + (if SentTo(e, c) then e.op.data else [])
  {
    hide SentTo;
    assert (sq + [e])[..|sq|] == sq;
  }

  lemma {:induction false} QueuedConcat(a: seq<Sqe>, b: seq<Sqe>, c: nat)
    ensures Queued(a + b, c) == Queued(a, c) + Queued(b, c)
    decreases |b|
  {
    hide SentTo;
    if b == [] {
      assert a + b == a;
    } else {
      var front, e := b[..|b| - 1], b[|b| - 1];
      assert b == front + [e] && a + b == (a + front) + [e];
      QueuedConcat(a, front, c);
      QueuedSnoc(a + front, e, c);
      QueuedSnoc(front, e, c);
    }
  }

  lemma {:induction false} QueuedNone(sq: seq<Sqe>, c: nat)
    requires forall i :: 0 <= i < |sq| ==> !sq[i].op.Send?
    ensures Queued(sq, c) == []
  {
    if sq != [] {
      QueuedNone(sq[..|sq| - 1], c);
    }
  }

  /** The tags of two clients differ. */
  lemma TagsDiffer(a: nat, b: nat)
    requires 1 <= a < ID_LIMIT && b < ID_LIMIT && a != b
    ensures Tag(a, SEND_EVENT) != Tag(b, SEND_EVENT)
  {
    hide Tag, Unpack;
    TagReads(a, SEND_EVENT);
    if b >= 1 {
      TagReads(b, SEND_EVENT);
    } else {
      TagZero();
    }
  }

  lemma {:induction false} TagZero()
    ensures Tag(0, SEND_EVENT) >= REQ_RESP_OFFSET && Unpack(Tag(0, SEND_EVENT)).clientId == 0
  {
    hide Pack, Unpack;
    PackUnpack(UserData(0, 0, SEND_EVENT));
  }

  /** Of the entries a flush builds, those for client c carry exactly its pending bytes. */
  lemma {:induction false} SendsCarry(out: map<nat, seq<byte>>, fds: map<nat, int>, id: nat, end: nat, c: nat)
    requires id >= 1 && end <= ID_LIMIT && c < ID_LIMIT
    ensures Queued(SendsFrom(out, fds, id, end), c) ==
      if id <= c < end && c in out && c in fds then out[c] else []
    decreases end - id
  {
    hide Tag;
    if id < end {
      var rest := SendsFrom(out, fds, id + 1, end);
      SendsCarry(out, fds, id + 1, end, c);
      if id in out && out[id] != [] && id in fds {
        var e := Sqe(Send(fds[id], out[id]), Tag(id, SEND_EVENT));
        QueuedConcat([e], rest, c);
        QueuedSnoc([], e, c);
        assert [] + [e] == [e];
        if c != id { TagsDiffer(id, c); }
      } else {
        assert [] + rest == rest;
      }
    }
  }

  lemma {:induction false} SendsAreOwned(out: map<nat, seq<byte>>, fds: map<nat, int>, fdOf: map<nat, int>,
                                         id: nat, end: nat, ubdma: bool)
    requires id >= 1 && end <= ID_LIMIT
    requires forall c: nat :: c in out ==> c in fdOf && c in fds && fdOf[c] == fds[c]
    ensures Entries(SendsFrom(out, fds, id, end), fdOf, ubdma)
    decreases end - id
  {
    hide Tag, Unpack;
    if id < end {
      SendsAreOwned(out, fds, fdOf, id + 1, end, ubdma);
      TagReads(id, SEND_EVENT);
    }
  }

  // ----- answers

  lemma OwedSnoc(handled: seq<Handled>, h: Handled, c: nat)
    ensures Owed(handled + [h], c) ==
      Owed(handled, c) + (if h.arrival.client == c then Answers(h.arrival.packet, h.date) else [])
  {
    hide Answers;
    assert (handled + [h])[..|handled|] == handled;
  }

  lemma TotalSnoc(handled: seq<Handled>, h: Handled)
    ensures Total(handled + [h]) == Total(handled) + |Requests(h.arrival.packet)|
  {
    hide Requests;
    assert (handled + [h])[..|handled|] == handled;
  }

  lemma {:induction false} StreamConcat(a: seq<Response.Answer>, b: seq<Response.Answer>)
    ensures Response.Stream(a + b) == Response.Stream(a) + Response.Stream(b)
  {
    hide Response.Reply;
    if a == [] {
      assert a + b == b;
    } else {
      assert (a + b)[0] == a[0] && (a + b)[1..] == a[1..] + b;
      StreamConcat(a[1..], b);
    }
  }

  /** Between 204 and 224 bytes an answer. */
  lemma {:induction false} StreamBound(a: seq<Response.Answer>)
    requires forall i :: 0 <= i < |a| ==> |a[i].date| == Response.DATE_LEN
    ensures 204 * |a| <= |Response.Stream(a)| <= Response.MAX_REPLY * |a|
  {
    hide Response.Reply;
    if a != [] {
      Response.ReplyLength(a[0].route, a[0].date);
      StreamBound(a[1..]);
    }
  }

  lemma AnswersDated(packet: seq<byte>, date: seq<byte>)
    ensures forall i :: 0 <= i < |Answers(packet, date)| ==> Answers(packet, date)[i].date == date
    ensures |Answers(packet, date)| == |Requests(packet)|
  {
    hide Requests;
  }
}
