/**
 parse_http_methods_paths: the scanner's starts, each read through a 32-byte window.  An
 entry is a pair of slices given by offset and length, as in the source.
 */
module Http {
  import opened Bytes
  import opened Simd
  import Scanner
  import Window

  datatype Entry = Entry(methodAt: nat, methodLen: nat, pathAt: nat, pathLen: nat)

  /** A raw slice: the part of it that lies in the buffer. */
  function Slice(buf: seq<byte>, at: nat, len: nat): seq<byte> {
    buf[Min(at, |buf|)..Min(at + len, |buf|)]
  }

  datatype Request = Request(verb: seq<byte>, path: seq<byte>)

  function View(buf: seq<byte>, e: Entry): Request {
    Request(Slice(buf, e.methodAt, e.methodLen), Slice(buf, e.pathAt, e.pathLen))
  }

  function Views(buf: seq<byte>, es: seq<Entry>): (r: seq<Request>)
    ensures |r| == |es|
  {
    seq(|es|, i requires 0 <= i < |es| => View(buf, es[i]))
  }

  // ----- the specification: every start whose window fits is read, in order

  /** The entry at one start, or none when its window has fewer than two spaces. */
  function EntryAt(buf: seq<byte>, start: nat): seq<Entry>
    requires start + LANES <= |buf|
  {
    match Window.ParseOne(buf[start..start + LANES])
    case None => []
    case Some(x) => [Entry(start + x.methodOff, x.methodLen, start + x.pathOff, x.pathLen)]
  }

  function EntriesAt(buf: seq<byte>, starts: seq<nat>): (es: seq<Entry>)
    ensures |es| <= |starts|
  {
    if starts == [] then []
    else (if starts[0] + LANES <= |buf| then EntryAt(buf, starts[0]) else []) + EntriesAt(buf, starts[1..])
  }

  /** What a parse with room for N entries finds in a buffer. */
  function Parse(buf: seq<byte>, N: nat): (es: seq<Entry>)
    ensures |es| <= N
  {
    EntriesAt(buf, Take(Scanner.Starts(buf, Scanner.ScanEnd(|buf|)), N))
  }

  // ----- the parser

  lemma NoEntries(buf: seq<byte>)
    ensures EntriesAt(buf, []) == []
  {
  }

  ghost predicate Ascending(s: seq<nat>) {
    forall i, j :: 0 <= i < j < |s| ==> s[i] < s[j]
  }

  lemma TakeAscending(s: seq<nat>, n: nat)
    requires Ascending(s)
    ensures Ascending(Take(s, n))
  {
  }

  lemma SnocTail(starts: seq<nat>, s: nat)
    requires starts != []
    ensures (starts + [s])[0] == starts[0] && (starts + [s])[1..] == starts[1..] + [s]
  {
  }

  lemma {:induction false} EntriesAtSnoc(buf: seq<byte>, starts: seq<nat>, s: nat)
    ensures EntriesAt(buf, starts + [s]) ==
      EntriesAt(buf, starts) + (if s + LANES <= |buf| then EntryAt(buf, s) else [])
  {
    hide EntryAt;
    if starts == [] {
      assert starts + [s] == [s] && [s][1..] == [];
    } else {
      var here := if starts[0] + LANES <= |buf| then EntryAt(buf, starts[0]) else [];
      var last := if s + LANES <= |buf| then EntryAt(buf, s) else [];
      EntriesAtSnoc(buf, starts[1..], s);
      SnocTail(starts, s);
      assert (here + EntriesAt(buf, starts[1..])) + last == here + (EntriesAt(buf, starts[1..]) + last);
    }
  }

  lemma {:induction false} EntriesAtBreak(buf: seq<byte>, starts: seq<nat>, i: nat)
    requires Ascending(starts) && i < |starts| && |buf| < starts[i] + LANES
    ensures EntriesAt(buf, starts[..i]) == EntriesAt(buf, starts)
    decreases |starts| - i
  {
    var front := starts[..|starts| - 1];
    EntriesAtSnoc(buf, front, starts[|starts| - 1]);
    assert starts == front + [starts[|starts| - 1]];
    assert starts[i] <= starts[|starts| - 1];
    if i < |front| {
      assert front[..i] == starts[..i];
      EntriesAtBreak(buf, front, i);
    }
  }

  /** The break at the first start that does not fit loses nothing: the result is the full reading. */
  method ParseHttpMethodsPaths(buf: seq<byte>, N: nat) returns (out: array<Entry>, count: nat)
    ensures fresh(out) && out.Length == N && count <= N
    ensures out[..count] == Parse(buf, N)
  {
    hide EntriesAt, Scanner.Starts, Scanner.ScanEnd, Window.ParseOne, Take;
    out := new Entry[N](_ => Entry(0, 0, 0, 0));
    count := 0;
    var found, total := Scanner.FindRequestStarts(buf, N);
    ghost var starts := found[..total];
    NoEntries(buf);
    Scanner.StartsExact(buf, Scanner.ScanEnd(|buf|));
    TakeAscending(Scanner.Starts(buf, Scanner.ScanEnd(|buf|)), N);
    var i := 0;
    while i < total
      invariant i <= total && count <= i
      invariant found[..total] == starts
      invariant out[..count] == EntriesAt(buf, starts[..i])
    {
      assert starts[..i + 1] == starts[..i] + [starts[i]];
      EntriesAtSnoc(buf, starts[..i], starts[i]);
      var start := found[i];
      if start + LANES > |buf| {
        EntriesAtBreak(buf, starts, i);
        return;
      }
      match Window.ParseOne(buf[start..start + LANES]) {
        case None =>
        case Some(x) =>
          out[count] := Entry(start + x.methodOff, x.methodLen, start + x.pathOff, x.pathLen);
          count := count + 1;
      }
      i := i + 1;
    }
    assert starts[..total] == starts;
  }

  // ----- where the slices lie

  /** The one input that breaks a window: its first space is its last byte. */
  ghost predicate Overruns(buf: seq<byte>, start: nat)
    requires start + LANES <= |buf|
  {
    Window.FirstSpace(buf[start..start + LANES], 0) == LANES - 1
  }

  /**
   Each entry lies in its 32-byte window, method first, then one space, then the path,
   exactly when the window's first space is not its last byte; otherwise the path slice starts at
   the window's end and is 31 bytes long, whether or not the buffer has them.
   */
  lemma EntryPlace(buf: seq<byte>, start: nat, e: Entry)
    requires start + LANES <= |buf| && e in EntryAt(buf, start)
    ensures e.methodAt == start && e.pathAt == start + e.methodLen + 1
    ensures e.pathAt + e.pathLen < start + LANES <==> !Overruns(buf, start)
    ensures Overruns(buf, start) ==> e.methodLen == 31 && e.pathLen == 31
  {
    var w := buf[start..start + LANES];
    Window.ParseOneExact(w);
    Window.TwoSpacesMeaning(w);
  }

  /** Every entry of a parse comes from a start whose window fits. */
  lemma {:induction false} EntryOrigin(buf: seq<byte>, starts: seq<nat>, e: Entry) returns (start: nat)
    requires e in EntriesAt(buf, starts)
    ensures start in starts && start + LANES <= |buf| && e in EntryAt(buf, start)
  {
    if starts[0] + LANES <= |buf| && e in EntryAt(buf, starts[0]) {
      start := starts[0];
    } else {
      start := EntryOrigin(buf, starts[1..], e);
    }
  }

  /**
   A method that reads "GET" has its path inside the window: a slice that leaves the buffer
   always comes with a 31-byte method, which no route compares a path for.
   */
  lemma GetPathInside(buf: seq<byte>, N: nat, e: Entry)
    requires e in Parse(buf, N)
    ensures e.methodAt + e.methodLen <= |buf|
    ensures e.pathAt + e.pathLen <= |buf| || e.methodLen == 31
  {
    var start := EntryOrigin(buf, Take(Scanner.Starts(buf, Scanner.ScanEnd(|buf|)), N), e);
    EntryPlace(buf, start, e);
  }

  /** A path slice leaves the buffer if and only if the first space ends the window and fewer than 31 bytes follow it. */
  lemma PathLeavesIff(buf: seq<byte>, N: nat, e: Entry)
    requires e in Parse(buf, N)
    ensures e.methodAt + LANES <= |buf|
    ensures |buf| < e.pathAt + e.pathLen <==> Overruns(buf, e.methodAt) && |buf| < e.methodAt + LANES + 31
  {
    var start := EntryOrigin(buf, Take(Scanner.Starts(buf, Scanner.ScanEnd(|buf|)), N), e);
    EntryPlace(buf, start, e);
  }

  /** A request whose path slice leaves the buffer. */
  lemma PathCanLeaveBuffer()
    ensures exists buf: seq<byte>, e :: e in Parse(buf, 1) && |buf| < e.pathAt + e.pathLen
  {
    var w := Ascii("GET") + seq(28, _ => 'a' as int) + [Window.SPACE];
    var buf := w + [0, 0];
    var e := Entry(0, 31, 32, 31);
    assert Ascii("GET") == ['G' as int, 'E' as int, 'T' as int];
    assert buf[0..3] == Ascii("GET");
    assert buf[0..32] == w;
    Window.FirstSpaceUnique(w, 0, 31);
    OverrunEntry(buf);
    assert e in Parse(buf, 1);
  }

  lemma FirstStart(buf: seq<byte>)
    requires |buf| == 34 && Scanner.IsStart(buf, 0)
    ensures Take(Scanner.Starts(buf, Scanner.ScanEnd(|buf|)), 1) == [0]
  {
    Scanner.StartsPrefix(buf, 1, 32);
    assert Scanner.Starts(buf, 0) == [];
    assert Scanner.ScanEnd(34) == 32;
  }

  lemma OverrunEntry(buf: seq<byte>)
    requires |buf| == 34 && Scanner.IsStart(buf, 0) && Overruns(buf, 0)
    ensures Parse(buf, 1) == [Entry(0, 31, 32, 31)]
  {
    hide Window.ParseOne, Scanner.IsStart, Scanner.Starts, Scanner.ScanEnd, Take;
    FirstStart(buf);
    Window.ParseOneExact(buf[0..32]);
    assert [0 as nat][1..] == [];
  }

  // ----- entries, byte by byte

  /** The window at p lies in the buffer and can be read. */
  ghost predicate Readable(buf: seq<byte>, p: nat) { p + LANES <= |buf| && Window.Legible(buf[p..p + LANES]) }

  /** The fields of an entry are those its window's first two spaces delimit, or 31 and 31 bytes around a last space. */
  ghost predicate Delimited(buf: seq<byte>, e: Entry) {
    && e.methodAt + LANES <= |buf|
    && var w := buf[e.methodAt..e.methodAt + LANES];
      || (Window.FirstTwo(w, e.methodLen, e.methodLen + 1 + e.pathLen) && e.pathAt == e.methodAt + e.methodLen + 1)
      || (Window.SpaceLast(w) && e == Entry(e.methodAt, LANES - 1, e.methodAt + LANES, LANES - 1))
  }

  /** A window is read as one entry when it is readable, and not at all otherwise. */
  lemma EntryExact(buf: seq<byte>, p: nat)
    requires p + LANES <= |buf|
    ensures |EntryAt(buf, p)| == if Readable(buf, p) then 1 else 0
    ensures forall e :: e in EntryAt(buf, p) ==> e.methodAt == p && Delimited(buf, e)
  {
    Window.ParseOneLegible(buf[p..p + LANES]);
    hide Window.ParseOne, Window.Legible, Window.FirstTwo, Window.SpaceLast;
  }

  ghost predicate EntryFor(es: seq<Entry>, p: nat) { exists e :: e in es && e.methodAt == p }

  /** Entries of the listed starts, in order: one for each that is readable. */
  lemma {:induction false} EntriesAtExact(buf: seq<byte>, starts: seq<nat>)
    requires Ascending(starts)
    ensures var es := EntriesAt(buf, starts);
      && (forall p: nat :: EntryFor(es, p) <==> p in starts && Readable(buf, p))
      && (forall e :: e in es ==> Delimited(buf, e))
      && (forall a, b :: 0 <= a < b < |es| ==> es[a].methodAt < es[b].methodAt)
  {
    hide Readable, Delimited, EntryAt;
    if starts != [] {
      var p, rest := starts[0], EntriesAt(buf, starts[1..]);
      assert EntriesAt(buf, starts) == (if p + LANES <= |buf| then EntryAt(buf, p) else []) + rest;
      EntriesAtExact(buf, starts[1..]);
      Unreadable(buf, p);
      var first := if p + LANES <= |buf| then EntryAt(buf, p) else [];
      if p + LANES <= |buf| { EntryExact(buf, p); }
      hide EntriesAt;
      EntriesJoin(first, rest, p, buf, starts);
    }
  }

  lemma Unreadable(buf: seq<byte>, p: nat)
    ensures Readable(buf, p) ==> p + LANES <= |buf|
  {
  }

  /** One more start in front. */
  lemma EntriesJoin(first: seq<Entry>, rest: seq<Entry>, p: nat, buf: seq<byte>, starts: seq<nat>)
    requires starts != [] && starts[0] == p && Ascending(starts)
    requires |first| == (if Readable(buf, p) then 1 else 0) && forall e :: e in first ==> e.methodAt == p && Delimited(buf, e)
    requires forall q: nat :: EntryFor(rest, q) <==> q in starts[1..] && Readable(buf, q)
    requires forall e :: e in rest ==> Delimited(buf, e)
    requires forall a, b :: 0 <= a < b < |rest| ==> rest[a].methodAt < rest[b].methodAt
    ensures var es := first + rest;
      && (forall q: nat :: EntryFor(es, q) <==> q in starts && Readable(buf, q))
      && (forall e :: e in es ==> Delimited(buf, e))
      && (forall a, b :: 0 <= a < b < |es| ==> es[a].methodAt < es[b].methodAt)
  {
    hide Readable, Delimited;
    var es := first + rest;
    forall q: nat ensures EntryFor(es, q) <==> q in starts && Readable(buf, q) {
      assert q in starts <==> q == p || q in starts[1..];
      if q in starts && Readable(buf, q) {
        if q == p {
          assert first[0] in es;
        } else {
          var e :| e in rest && e.methodAt == q;
          assert e in es;
        }
      }
    }
    forall a, b | 0 <= a < b < |es| ensures es[a].methodAt < es[b].methodAt {
      assert es[b] in rest;
      var q := es[b].methodAt;
      assert q in starts[1..];
      if a < |first| { assert es[a] == first[a]; } else { assert es[a] == rest[a - |first|] && es[b] == rest[b - |first|]; }
    }
  }

  /**
   What a parse finds, on the bytes: one entry for each of the first N starts below the scan's end whose
   window lies in the buffer and holds two spaces or ends in its only one; none for any other start; in order of
   the starts, each with the fields its spaces delimit.
   */
  lemma EntriesExact(buf: seq<byte>, N: nat)
    ensures var es := Parse(buf, N);
      && (forall p: nat :: EntryFor(es, p) <==>
           p in Take(Scanner.Starts(buf, Scanner.ScanEnd(|buf|)), N) && Readable(buf, p))
      && (forall e :: e in es ==> Delimited(buf, e))
      && (forall a, b :: 0 <= a < b < |es| ==> es[a].methodAt < es[b].methodAt)
  {
    hide Readable, Delimited, Scanner.Starts;
    var starts := Scanner.Starts(buf, Scanner.ScanEnd(|buf|));
    Scanner.StartsExact(buf, Scanner.ScanEnd(|buf|));
    TakeAscending(starts, N);
    EntriesAtExact(buf, Take(starts, N));
    var es := Parse(buf, N);
    assert es == EntriesAt(buf, Take(starts, N));
    forall a, b | 0 <= a < b < |es| ensures es[a].methodAt < es[b].methodAt {}
  }

  // ----- round trip

  /** A pipelined request as a client writes it: method SP path SP rest. */
  datatype WireRequest = WireRequest(post: bool, path: seq<byte>, rest: seq<byte>) {
    function Verb(): seq<byte> { if post then Ascii("POST") else Ascii("GET") }

    function Bytes(): seq<byte> { Verb() + [Window.SPACE] + path + [Window.SPACE] + rest }

    /** No space in the path, and the second space within the window. */
    predicate Fits() {
      Window.SPACE !in path && |Verb()| + 1 + |path| < LANES
    }
  }

  function Wire(reqs: seq<WireRequest>): seq<byte> {
    if reqs == [] then [] else reqs[0].Bytes() + Wire(reqs[1..])
  }

  /** Where each request begins, the first at `base`. */
  function Offsets(reqs: seq<WireRequest>, base: nat): (s: seq<nat>)
    ensures |s| == |reqs|
  {
    if reqs == [] then [] else [base] + Offsets(reqs[1..], base + |reqs[0].Bytes()|)
  }

  function Sent(reqs: seq<WireRequest>): (s: seq<Request>)
    ensures |s| == |reqs|
  {
    seq(|reqs|, i requires 0 <= i < |reqs| => Request(reqs[i].Verb(), reqs[i].path))
  }

  lemma OffsetsTail(reqs: seq<WireRequest>, base: nat, i: nat)
    requires 0 < i < |reqs|
    ensures Offsets(reqs, base)[i] == Offsets(reqs[1..], base + |reqs[0].Bytes()|)[i - 1]
  {
    hide WireRequest.Bytes;
  }

  lemma OffsetsHead(reqs: seq<WireRequest>, base: nat)
    requires reqs != []
    ensures Offsets(reqs, base)[0] == base
  {
  }

  lemma BytesNonempty(r: WireRequest)
    ensures |r.Bytes()| > 0
  {
  }

  lemma {:induction false} OffsetInOrder(reqs: seq<WireRequest>, base: nat, i: nat, j: nat)
    requires i < j < |reqs|
    ensures base <= Offsets(reqs, base)[i] < Offsets(reqs, base)[j]
    decreases |reqs|
  {
    hide Offsets, WireRequest.Bytes;
    var n := |reqs[0].Bytes()|;
    BytesNonempty(reqs[0]);
    OffsetsHead(reqs, base);
    OffsetsHead(reqs[1..], base + n);
    OffsetsTail(reqs, base, j);
    if i > 0 {
      OffsetsTail(reqs, base, i);
      OffsetInOrder(reqs[1..], base + n, i - 1, j - 1);
    } else if j > 1 {
      OffsetInOrder(reqs[1..], base + n, 0, j - 1);
    }
  }

  lemma OffsetsAscending(reqs: seq<WireRequest>, base: nat)
    ensures Ascending(Offsets(reqs, base))
  {
    hide Offsets;
    forall i, j | 0 <= i < j < |reqs| ensures Offsets(reqs, base)[i] < Offsets(reqs, base)[j] {
      OffsetInOrder(reqs, base, i, j);
    }
  }

  /** The tail of a wire is at least as long as its last request. */
  lemma {:induction false} WireTail(reqs: seq<WireRequest>, base: nat, i: nat)
    requires i < |reqs|
    ensures Offsets(reqs, base)[i] + |reqs[|reqs| - 1].Bytes()| <= base + |Wire(reqs)|
  {
    if i > 0 || |reqs| > 1 {
      if i > 0 {
        WireTail(reqs[1..], base + |reqs[0].Bytes()|, i - 1);
      } else {
        WireTail(reqs[1..], base + |reqs[0].Bytes()|, 0);
        assert Offsets(reqs[1..], base + |reqs[0].Bytes()|)[0] == base + |reqs[0].Bytes()|;
      }
    }
  }

  lemma HeadIn(s: seq<nat>)
    requires s != []
    ensures s[0] in s
  {
  }

  /** Two strictly ascending lists with the same members are the same list. */
  lemma {:induction false} AscendingUnique(a: seq<nat>, b: seq<nat>)
    requires Ascending(a) && Ascending(b)
    requires forall x :: x in a <==> x in b
    ensures a == b
  {
    if a == [] {
      if b != [] { HeadIn(b); }
    } else {
      HeadIn(a);
      HeadIn(b);
      assert a[0] in a && a[0] in b && b[0] in b && b[0] in a;
      assert a[0] == b[0];
      forall x ensures x in a[1..] <==> x in b[1..] {
        assert x in a[1..] <==> x in a && x != a[0];
        assert x in b[1..] <==> x in b && x != b[0];
      }
      AscendingUnique(a[1..], b[1..]);
    }
  }

  lemma VerbStarts(buf: seq<byte>, at: nat, r: WireRequest)
    requires at + |r.Bytes()| <= |buf| && buf[at..at + |r.Bytes()|] == r.Bytes()
    ensures Scanner.IsStart(buf, at)
  {
    assert buf[at..at + 3] == buf[at..at + |r.Bytes()|][..3] == r.Bytes()[..3];
    assert r.Bytes()[..3] == r.Verb()[..3];
    assert Ascii("POST")[..3] == Ascii("POS") && Ascii("GET")[..3] == Ascii("GET");
  }

  lemma SubSlice(buf: seq<byte>, at: nat, part: seq<byte>, lo: nat, hi: nat)
    requires at + |part| <= |buf| && buf[at..at + |part|] == part
    requires lo <= hi <= |part|
    ensures buf[at + lo..at + hi] == part[lo..hi]
  {
    forall k | 0 <= k < hi - lo ensures buf[at + lo..at + hi][k] == part[lo..hi][k] {
      assert buf[at..at + |part|][lo + k] == buf[at + lo + k];
    }
  }

  /** The window at a request is read as its verb and its path. */
  lemma WindowReads(buf: seq<byte>, at: nat, r: WireRequest)
    requires r.Fits() && at + LANES <= |buf|
    requires at + |r.Bytes()| <= |buf| && buf[at..at + |r.Bytes()|] == r.Bytes()
    ensures Window.ParseOne(buf[at..at + LANES]) == Some(Window.Fields(0, |r.Verb()|, |r.Verb()| + 1, |r.path|))
  {
    BytesParts(r);
    hide Window.ParseOne, WireRequest.Verb, WireRequest.Bytes;
    var w, n := buf[at..at + LANES], |r.Verb()| + |r.path| + 2;
    SubSlice(buf, at, r.Bytes(), 0, n);
    assert w[..n] == buf[at + 0..at + n];
    Window.ParseOneReads(w, r.Verb(), r.path);
  }

  lemma EntryIs(buf: seq<byte>, at: nat, r: WireRequest)
    requires r.Fits() && at + LANES <= |buf|
    requires at + |r.Bytes()| <= |buf| && buf[at..at + |r.Bytes()|] == r.Bytes()
    ensures EntryAt(buf, at) == [Entry(at, |r.Verb()|, at + |r.Verb()| + 1, |r.path|)]
  {
    WindowReads(buf, at, r);
    hide Window.ParseOne, WireRequest.Verb, WireRequest.Bytes, WireRequest.Fits;
  }

  lemma EntryReads(buf: seq<byte>, at: nat, r: WireRequest)
    requires r.Fits() && at + LANES <= |buf|
    requires at + |r.Bytes()| <= |buf| && buf[at..at + |r.Bytes()|] == r.Bytes()
    ensures EntryAt(buf, at) == [Entry(at, |r.Verb()|, at + |r.Verb()| + 1, |r.path|)]
    ensures Views(buf, EntryAt(buf, at)) == [Request(r.Verb(), r.path)]
  {
    hide WireRequest.Verb, WireRequest.Bytes, WireRequest.Fits, EntryAt;
    EntryIs(buf, at, r);
    BytesParts(r);
    SubSlice(buf, at, r.Bytes(), 0, |r.Verb()|);
    SubSlice(buf, at, r.Bytes(), |r.Verb()| + 1, |r.Verb()| + 1 + |r.path|);
  }

  /** The window of a request that is too long for it holds one space and gives no entry. */
  lemma OverlongUnread(buf: seq<byte>, at: nat, r: WireRequest)
    requires Window.SPACE !in r.path && !r.Fits() && at + LANES <= |buf|
    requires at + |r.Bytes()| <= |buf| && buf[at..at + |r.Bytes()|] == r.Bytes()
    ensures EntryAt(buf, at) == []
  {
    BytesParts(r);
    VerbLength(r);
    var w, v := buf[at..at + LANES], |r.Verb()|;
    var n := v + |r.path| + 2;
    var head := r.Verb() + [Window.SPACE] + r.path + [Window.SPACE];
    SubSlice(buf, at, r.Bytes(), 0, n);
    hide WireRequest.Verb, WireRequest.Bytes, EntryAt;
    assert forall k :: 0 <= k < LANES ==> w[k] == buf[at + 0..at + n][k] == head[k];
    forall k | 0 <= k < LANES && k != v ensures w[k] != Window.SPACE {
      if k < v { assert head[k] == r.Verb()[k]; } else { assert head[k] == r.path[k - v - 1]; }
    }
    EntryExact(buf, at);
  }

  lemma VerbLength(r: WireRequest)
    ensures |r.Verb()| <= 4
  {
  }

  lemma BytesParts(r: WireRequest)
    ensures Window.SPACE !in r.Verb()
    ensures var v, n := |r.Verb()|, |r.path|;
      && v + n + 2 <= |r.Bytes()|
      && r.Bytes()[0..v] == r.Verb()
      && r.Bytes()[v + 1..v + 1 + n] == r.path
      && r.Bytes()[0..v + n + 2] == r.Verb() + [Window.SPACE] + r.path + [Window.SPACE]
  {
    assert Ascii("POST") == ['P' as int, 'O' as int, 'S' as int, 'T' as int];
    assert Ascii("GET") == ['G' as int, 'E' as int, 'T' as int];
  }

  lemma WireStep(pre: seq<byte>, reqs: seq<WireRequest>)
    requires reqs != []
    ensures var r, at := reqs[0], |pre|; var buf := pre + Wire(reqs);
      && buf == (pre + r.Bytes()) + Wire(reqs[1..])
      && at + |r.Bytes()| <= |buf| && buf[at..at + |r.Bytes()|] == r.Bytes()
      && Offsets(reqs, at) == [at] + Offsets(reqs[1..], |pre + r.Bytes()|)
      && at + |reqs[|reqs| - 1].Bytes()| <= |buf|
  {
    hide WireRequest.Bytes, Offsets, Wire;
    WireCons(reqs);
    WireTail(reqs, |pre|, 0);
    OffsetsHead(reqs, |pre|);
    OffsetsCons(reqs, |pre|);
    Middle(pre, reqs[0].Bytes(), Wire(reqs[1..]));
  }

  lemma WireCons(reqs: seq<WireRequest>)
    requires reqs != []
    ensures Wire(reqs) == reqs[0].Bytes() + Wire(reqs[1..])
  {
  }

  lemma OffsetsCons(reqs: seq<WireRequest>, base: nat)
    requires reqs != []
    ensures Offsets(reqs, base) == [base] + Offsets(reqs[1..], base + |reqs[0].Bytes()|)
  {
  }

  lemma NothingSent()
    ensures Wire([]) == [] && Sent([]) == []
    ensures forall base :: Offsets([], base) == []
    ensures forall buf :: Views(buf, []) == []
  {
  }

  /** The requests that fit their window, as sent. */
  function Fitting(reqs: seq<WireRequest>): seq<Request> {
    if reqs == [] then []
    else (if reqs[0].Fits() then [Request(reqs[0].Verb(), reqs[0].path)] else []) + Fitting(reqs[1..])
  }

  lemma {:induction false} EntriesRead(pre: seq<byte>, reqs: seq<WireRequest>)
    requires forall i :: 0 <= i < |reqs| ==> Window.SPACE !in reqs[i].path
    requires reqs != [] ==> |reqs[|reqs| - 1].Bytes()| >= LANES
    ensures Views(pre + Wire(reqs), EntriesAt(pre + Wire(reqs), Offsets(reqs, |pre|))) == Fitting(reqs)
    ensures forall x :: x in Offsets(reqs, |pre|) ==> Scanner.IsStart(pre + Wire(reqs), x)
    decreases |reqs|
  {
    NothingSent();
    hide Slice, EntryAt, Views, Wire, Offsets, WireRequest.Bytes, WireRequest.Fits, Scanner.IsStart;
    if reqs != [] {
      var r, at := reqs[0], |pre|;
      var buf := pre + Wire(reqs);
      var pre' := pre + r.Bytes();
      WireStep(pre, reqs);
      VerbStarts(buf, at, r);
      if r.Fits() { EntryReads(buf, at, r); } else { OverlongUnread(buf, at, r); }
      EntriesRead(pre', reqs[1..]);
      var es := EntriesAt(buf, Offsets(reqs[1..], |pre'|));
      ViewsConcat(buf, EntryAt(buf, at), es);
    }
  }

  lemma {:induction false} AllFitting(reqs: seq<WireRequest>)
    requires forall i :: 0 <= i < |reqs| ==> reqs[i].Fits()
    ensures Fitting(reqs) == Sent(reqs)
    ensures forall i :: 0 <= i < |reqs| ==> Window.SPACE !in reqs[i].path
  {
    if reqs != [] {
      AllFitting(reqs[1..]);
      SentCons(reqs);
    }
  }

  lemma SentCons(reqs: seq<WireRequest>)
    requires reqs != []
    ensures Sent(reqs) == [Request(reqs[0].Verb(), reqs[0].path)] + Sent(reqs[1..])
  {
  }

  lemma ViewsConcat(buf: seq<byte>, a: seq<Entry>, b: seq<Entry>)
    ensures Views(buf, a + b) == Views(buf, a) + Views(buf, b)
  {
  }

  /**
   A pipeline of at most N requests with space-free paths of any length, the last request at least 34 bytes
   long and with no start but the requests' own, is read back as the (method, path) list of those whose second
   space lies within their window: the others are passed over, and disturb nothing.
   */
  lemma MixedRoundTrip(reqs: seq<WireRequest>, N: nat)
    requires |reqs| <= N
    requires forall i :: 0 <= i < |reqs| ==> Window.SPACE !in reqs[i].path
    requires reqs != [] ==> |reqs[|reqs| - 1].Bytes()| >= 34
    requires forall p: nat :: Scanner.IsStart(Wire(reqs), p) ==> p in Offsets(reqs, 0)
    ensures Views(Wire(reqs), Parse(Wire(reqs), N)) == Fitting(reqs)
  {
    var buf := Wire(reqs);
    var end := Scanner.ScanEnd(|buf|);
    assert [] + buf == buf;
    EntriesRead([], reqs);
    Scanner.StartsExact(buf, end);
    OffsetsAscending(reqs, 0);
    forall x | x in Offsets(reqs, 0) ensures x < end {
      var i :| 0 <= i < |reqs| && Offsets(reqs, 0)[i] == x;
      WireTail(reqs, 0, i);
    }
    AscendingUnique(Scanner.Starts(buf, end), Offsets(reqs, 0));
  }

  /**
   A pipeline of at most N requests that fit, the last at least 34 bytes long and with no start but the
   requests' own, is read back as exactly its (method, path) list.
   */
  lemma PipelinedRoundTrip(reqs: seq<WireRequest>, N: nat)
    requires |reqs| <= N
    requires forall i :: 0 <= i < |reqs| ==> reqs[i].Fits()
    requires reqs != [] ==> |reqs[|reqs| - 1].Bytes()| >= 34
    requires forall p: nat :: Scanner.IsStart(Wire(reqs), p) ==> p in Offsets(reqs, 0)
    ensures Views(Wire(reqs), Parse(Wire(reqs), N)) == Sent(reqs)
  {
    hide Wire, Offsets, Views, Parse, Sent, Fitting, WireRequest.Bytes, WireRequest.Fits;
    AllFitting(reqs);
    MixedRoundTrip(reqs, N);
  }

  // ----- pipelines without stray starts

  predicate Initial(b: byte) { b == 'G' as int || b == 'P' as int }

  /** No byte of the path or the rest could begin a request. */
  predicate Clean(r: WireRequest) {
    (forall i :: 0 <= i < |r.path| ==> !Initial(r.path[i])) && (forall i :: 0 <= i < |r.rest| ==> !Initial(r.rest[i]))
  }

  lemma VerbInitial(r: WireRequest, k: nat)
    requires 0 < k < |r.Verb()|
    ensures !Initial(r.Verb()[k])
  {
    assert Ascii("POST") == ['P' as int, 'O' as int, 'S' as int, 'T' as int];
    assert Ascii("GET") == ['G' as int, 'E' as int, 'T' as int];
  }

  /** Which part of a request a byte belongs to. */
  lemma ByteOf(verb: seq<byte>, path: seq<byte>, rest: seq<byte>, k: nat)
    requires k < |verb| + 1 + |path| + 1 + |rest|
    ensures var b, v, n := verb + [Window.SPACE] + path + [Window.SPACE] + rest, |verb|, |path|;
      b[k] == if k < v then verb[k]
              else if k == v || k == v + 1 + n then Window.SPACE
              else if k < v + 1 + n then path[k - v - 1] else rest[k - v - n - 2]
  {
  }

  lemma OnlyFirstIsInitial(r: WireRequest, k: nat)
    requires Clean(r) && 0 < k < |r.Bytes()|
    ensures !Initial(r.Bytes()[k])
  {
    hide WireRequest.Verb;
    ByteOf(r.Verb(), r.path, r.rest, k);
    if k < |r.Verb()| { VerbInitial(r, k); }
  }

  lemma {:induction false} CleanFrom(pre: seq<byte>, reqs: seq<WireRequest>, p: nat)
    requires forall i :: 0 <= i < |reqs| ==> Clean(reqs[i])
    requires |pre| <= p && Scanner.IsStart(pre + Wire(reqs), p)
    ensures p in Offsets(reqs, |pre|)
    decreases |reqs|
  {
    hide WireRequest.Bytes, Clean, Initial, Scanner.IsStart;
    var buf := pre + Wire(reqs);
    StartIsInitial(buf, p);
    if reqs != [] {
      var r := reqs[0];
      WireStep(pre, reqs);
      if p < |pre| + |r.Bytes()| {
        SubSlice(buf, |pre|, r.Bytes(), p - |pre|, p - |pre| + 1);
        assert buf[p..p + 1][0] == buf[p] == r.Bytes()[p - |pre|];
        if p > |pre| { OnlyFirstIsInitial(r, p - |pre|); }
      } else {
        CleanFrom(pre + r.Bytes(), reqs[1..], p);
      }
    }
  }

  lemma StartIsInitial(buf: seq<byte>, p: nat)
    requires Scanner.IsStart(buf, p)
    ensures p < |buf| && Initial(buf[p])
  {
    Scanner.IsStartBytes(buf, p);
  }

  /** Requests whose paths and rests hold no 'G' and no 'P' are read back, whatever else they hold. */
  lemma CleanRoundTrip(reqs: seq<WireRequest>, N: nat)
    requires |reqs| <= N
    requires forall i :: 0 <= i < |reqs| ==> reqs[i].Fits() && Clean(reqs[i])
    requires reqs != [] ==> |reqs[|reqs| - 1].Bytes()| >= 34
    ensures Views(Wire(reqs), Parse(Wire(reqs), N)) == Sent(reqs)
  {
    hide Wire, Offsets, Views, Parse, Sent, Clean, WireRequest.Bytes, WireRequest.Fits;
    assert [] + Wire(reqs) == Wire(reqs);
    forall p: nat | Scanner.IsStart(Wire(reqs), p) ensures p in Offsets(reqs, 0) {
      CleanFrom([], reqs, p);
    }
    PipelinedRoundTrip(reqs, N);
  }
}
