/** Server::handler: routing and the exact bytes of a response, and the client that takes the stream apart. */
module Response {
  import opened Bytes
  import opened Lake

  const CR: byte := 13
  const LF: byte := 10
  const CRLF: seq<byte> := [CR, LF]

  datatype Route = Plaintext | Json | NotFound

  function RouteOf(verb: seq<byte>, path: seq<byte>): Route {
    if verb == Ascii("GET") && path == Ascii("/plaintext") then Plaintext
    else if verb == Ascii("GET") && path == Ascii("/json") then Json
    else NotFound
  }

  const CONTENT_LENGTH: seq<byte> := Ascii("Content-Length: ")

  function Status(r: Route): (l: seq<byte>)
    ensures 0 < |l| <= 22
  {
    if r.NotFound? then Ascii("HTTP/1.1 404 Not Found") else Ascii("HTTP/1.1 200 OK")
  }

  function ContentType(r: Route): (l: seq<byte>)
    ensures 0 < |l| <= 45
  {
    Ascii("Content-Type: ") + (if r.Json? then Ascii("application/json") else Ascii("text/plain")) + Ascii("; charset=utf-8")
  }

  /** The JSON encoder is taken as its 27-byte output. */
  function Body(r: Route): (b: seq<byte>)
    ensures |b| == match r case Plaintext => 13 case Json => 27 case NotFound => 11
  {
    match r
    case Plaintext => Ascii("Hello, World!")
    case Json => Ascii("{\"message\":\"Hello, World!\"}")
    case NotFound => Ascii("Not, found!")
  }

  const SERVER: seq<byte> := Ascii("Server: Tachyon")
  const CONNECTION: seq<byte> := Ascii("Connection: keep-alive")
  const KEEP_ALIVE: seq<byte> := Ascii("Keep-Alive: timeout=5") + Ascii(", max=1000")

  function BaseHeaders(): (h: seq<byte>)
    ensures |h| == 76
  {
    SERVER + CRLF + CONNECTION + CRLF + KEEP_ALIVE + CRLF + CRLF
  }

  /** The bytes of a response, in the order the handler writes them; its first two lines carry their CRLF. */
  function Assemble(statusLine: seq<byte>, ct: seq<byte>, date: seq<byte>, body: seq<byte>): seq<byte>
    requires |body| < 100
  {
    statusLine + ct + date + CRLF + CONTENT_LENGTH + TwoDigits(|body|) + CRLF + BaseHeaders() + body
  }

  function Reply(r: Route, date: seq<byte>): seq<byte> {
    Assemble(Status(r) + CRLF, ContentType(r) + CRLF, date, Body(r))
  }

  const MAX_REPLY: nat := 224
  const DATE_LEN: nat := 35

  /** With a 35-byte date a response is 204, 224 or 209 bytes long. */
  lemma ReplyLength(r: Route, date: seq<byte>)
    requires |date| == DATE_LEN
    ensures |Reply(r, date)| == match r case Plaintext => 204 case Json => 224 case NotFound => 209
  {
  }

  // ----- the three responses, literally

  /** A response on the wire: three lines before the date, five after it, and the body. */
  function Written(status: seq<byte>, ct: seq<byte>, date: seq<byte>, length: seq<byte>, body: seq<byte>): seq<byte> {
    status + [13, 10] + ct + [13, 10] + date + [13, 10] + length + [13, 10]
    + Ascii("Server: Tachyon") + [13, 10] + Ascii("Connection: keep-alive") + [13, 10]
    + Ascii("Keep-Alive: timeout=5, max=1000") + [13, 10, 13, 10] + body
  }

  /** The response to GET /plaintext. */
  function PlaintextBytes(date: seq<byte>): seq<byte> {
    Written(Ascii("HTTP/1.1 200 OK"), Ascii("Content-Type: text/plain; charset=utf-8"), date,
            Ascii("Content-Length: 13"), Ascii("Hello, World!"))
  }

  /** The response to GET /json. */
  function JsonBytes(date: seq<byte>): seq<byte> {
    Written(Ascii("HTTP/1.1 200 OK"), Ascii("Content-Type: application/json; charset=utf-8"), date,
            Ascii("Content-Length: 27"), Ascii("{\"message\":\"Hello, World!\"}"))
  }

  /** The response to anything else. */
  function NotFoundBytes(date: seq<byte>): seq<byte> {
    Written(Ascii("HTTP/1.1 404 Not Found"), Ascii("Content-Type: text/plain; charset=utf-8"), date,
            Ascii("Content-Length: 11"), Ascii("Not, found!"))
  }

  /** Every request gets the literal response of its method and path. */
  lemma ReplyLiteral(verb: seq<byte>, path: seq<byte>, date: seq<byte>)
    ensures Reply(RouteOf(verb, path), date) ==
      if verb == Ascii("GET") && path == Ascii("/plaintext") then PlaintextBytes(date)
      else if verb == Ascii("GET") && path == Ascii("/json") then JsonBytes(date)
      else NotFoundBytes(date)
  {
    ReplyWritten(RouteOf(verb, path), date);
    TextType();
    JsonType();
    Lengths();
    Bodies();
    hide Ascii, TwoDigits, ContentType, Body, Reply, Written;
  }

  lemma ReplyWritten(r: Route, date: seq<byte>)
    ensures Reply(r, date) == Written(Status(r), ContentType(r), date, CONTENT_LENGTH + TwoDigits(|Body(r)|), Body(r))
  {
    KeepAlive();
    hide Ascii, TwoDigits, Status, ContentType, Body;
    AssembleWritten(Status(r), ContentType(r), date, Body(r));
  }

  lemma Assoc(a: seq<byte>, b: seq<byte>, c: seq<byte>)
    ensures a + (b + c) == a + b + c
  {
  }

  lemma AssembleWritten(status: seq<byte>, ct: seq<byte>, date: seq<byte>, body: seq<byte>)
    requires |body| < 100 && KEEP_ALIVE == Ascii("Keep-Alive: timeout=5, max=1000")
    ensures Assemble(status + CRLF, ct + CRLF, date, body) == Written(status, ct, date, CONTENT_LENGTH + TwoDigits(|body|), body)
  {
    hide Ascii, TwoDigits;
    var front := status + CRLF + ct + CRLF + date + CRLF;
    Assoc(status + CRLF, ct, CRLF);
    var n := TwoDigits(|body|);
    Assoc(front, CONTENT_LENGTH, n);
    var before := front + CONTENT_LENGTH + n + CRLF;
    BaseParts(before);
  }

  lemma BaseParts(before: seq<byte>)
    requires KEEP_ALIVE == Ascii("Keep-Alive: timeout=5, max=1000")
    ensures before + BaseHeaders() == before + Ascii("Server: Tachyon") + [13, 10] + Ascii("Connection: keep-alive") + [13, 10]
      + Ascii("Keep-Alive: timeout=5, max=1000") + [13, 10, 13, 10]
  {
    hide Ascii;
    var a, b, c := SERVER + CRLF, CONNECTION + CRLF, KEEP_ALIVE + CRLF + CRLF;
    assert c == KEEP_ALIVE + [13, 10, 13, 10];
    assert BaseHeaders() == a + b + c;
    assert before + (a + b + c) == before + a + b + c;
    assert before + a == before + SERVER + CRLF;
    assert before + a + b == before + a + CONNECTION + CRLF;
  }

  lemma Bodies()
    ensures Body(Plaintext) == Ascii("Hello, World!") && Body(Json) == Ascii("{\"message\":\"Hello, World!\"}")
    ensures Body(NotFound) == Ascii("Not, found!")
  {
  }

  lemma AsciiConcat(a: string, b: string)
    ensures Ascii(a + b) == Ascii(a) + Ascii(b)
  {
  }

  lemma TextType()
    ensures ContentType(Plaintext) == ContentType(NotFound) == Ascii("Content-Type: text/plain; charset=utf-8")
  {
    hide Ascii;
    AsciiConcat("Content-Type: ", "text/plain");
    AsciiConcat("Content-Type: text/plain", "; charset=utf-8");
    assert "Content-Type: " + "text/plain" == "Content-Type: text/plain";
    assert "Content-Type: text/plain" + "; charset=utf-8" == "Content-Type: text/plain; charset=utf-8";
  }

  lemma JsonType()
    ensures ContentType(Json) == Ascii("Content-Type: application/json; charset=utf-8")
  {
    hide Ascii;
    AsciiConcat("Content-Type: ", "application/json");
    AsciiConcat("Content-Type: application/json", "; charset=utf-8");
    assert "Content-Type: " + "application/json" == "Content-Type: application/json";
    assert "Content-Type: application/json" + "; charset=utf-8" == "Content-Type: application/json; charset=utf-8";
  }

  lemma Lengths()
    ensures CONTENT_LENGTH + TwoDigits(13) == Ascii("Content-Length: 13")
    ensures CONTENT_LENGTH + TwoDigits(27) == Ascii("Content-Length: 27")
    ensures CONTENT_LENGTH + TwoDigits(11) == Ascii("Content-Length: 11")
  {
  }

  lemma KeepAlive()
    ensures KEEP_ALIVE == Ascii("Keep-Alive: timeout=5, max=1000")
  {
  }

  // ----- the handler, in its three stages

  /** The router: status line, content type and body; the JSON body is encoded into `jsonBuf`. */
  method SelectRoute(verb: seq<byte>, path: seq<byte>, jsonBuf: SmallLake)
    returns (statusLine: seq<byte>, ct: seq<byte>, body: seq<byte>)
    requires jsonBuf.capacity == 100
    modifies jsonBuf
    ensures var r := RouteOf(verb, path);
      statusLine == Status(r) + CRLF && ct == ContentType(r) + CRLF && body == Body(r)
  {
    jsonBuf.ResetPos();
    var typePrefix, charset := Ascii("Content-Type: "), Ascii("; charset=utf-8") + CRLF;
    if verb == Ascii("GET") && path == Ascii("/plaintext") {
      statusLine, ct := Ascii("HTTP/1.1 200 OK") + CRLF, typePrefix + Ascii("text/plain") + charset;
      body := Ascii("Hello, World!");
    } else if verb == Ascii("GET") && path == Ascii("/json") {
      jsonBuf.Write(Ascii("{\"message\":\"Hello, World!\"}"));
      statusLine, ct := Ascii("HTTP/1.1 200 OK") + CRLF, typePrefix + Ascii("application/json") + charset;
      body := jsonBuf.data;
    } else {
      statusLine, ct := Ascii("HTTP/1.1 404 Not Found") + CRLF, typePrefix + Ascii("text/plain") + charset;
      body := Ascii("Not, found!");
    }
  }

  /** The writes into the data lake, which is large enough for every route. */
  method BuildReply(statusLine: seq<byte>, ct: seq<byte>, body: seq<byte>, date: seq<byte>, dataLake: SmallLake)
    requires |statusLine| <= 24 && |ct| <= 47 && |body| <= 27 && |date| == DATE_LEN && dataLake.capacity == 512
    modifies dataLake
    ensures dataLake.data == Assemble(statusLine, ct, date, body)
  {
    dataLake.ResetPos();
    dataLake.Write(statusLine);
    dataLake.Write(ct);
    dataLake.Write(date);
    dataLake.Write(CRLF);
    dataLake.Write(CONTENT_LENGTH);
    dataLake.WriteNumFixed2(|body|);
    dataLake.Write(CRLF);
    hide BaseHeaders, TwoDigits, Ascii;
    dataLake.Write(BaseHeaders());
    dataLake.Write(body);
    assert [] + statusLine == statusLine;
  }

  /** Builds the response to one request and copies it into the hot cache at `at`, touching nothing else there. */
  method Handler(verb: seq<byte>, path: seq<byte>, date: seq<byte>,
                 hotCache: array<byte>, at: nat, jsonBuf: SmallLake, dataLake: SmallLake) returns (len: nat)
    requires |date| == DATE_LEN && jsonBuf != dataLake && jsonBuf.capacity == 100 && dataLake.capacity == 512
    requires at + |Reply(RouteOf(verb, path), date)| <= hotCache.Length
    modifies hotCache, jsonBuf, dataLake
    ensures len == |Reply(RouteOf(verb, path), date)|
    ensures hotCache[..at] == old(hotCache[..at])
    ensures hotCache[at..at + len] == Reply(RouteOf(verb, path), date)
    ensures hotCache[at + len..] == old(hotCache[at + len..])
    ensures hotCache[at..at + len] ==
      if verb == Ascii("GET") && path == Ascii("/plaintext") then PlaintextBytes(date)
      else if verb == Ascii("GET") && path == Ascii("/json") then JsonBytes(date)
      else NotFoundBytes(date)
  {
    ReplyLiteral(verb, path, date);
    hide *;
    var statusLine, ct, body := SelectRoute(verb, path, jsonBuf);
    PartLengths(RouteOf(verb, path), date);
    BuildReply(statusLine, ct, body, date, dataLake);
    len := |dataLake.data|;
    forall k | at <= k < at + len {
      hotCache[k] := dataLake.data[k - at];
    }
  }

  lemma PartLengths(r: Route, date: seq<byte>)
    ensures |Status(r) + CRLF| <= 24 && |ContentType(r) + CRLF| <= 47 && |Body(r)| <= 27 && DATE_LEN == 35
    ensures Reply(r, date) == Assemble(Status(r) + CRLF, ContentType(r) + CRLF, date, Body(r))
  {
  }

  // ----- the receiving side

  datatype Message = Message(lines: seq<seq<byte>>, body: seq<byte>)

  /** Splits at the first CRLF. */
  function SplitLine(s: seq<byte>): (r: Option<(seq<byte>, seq<byte>)>)
    ensures r.Some? ==> |s| == |r.value.0| + 2 + |r.value.1|
  {
    if |s| < 2 then None
    else if s[0] == CR && s[1] == LF then Some(([], s[2..]))
    else match SplitLine(s[1..])
      case None => None
      case Some((line, rest)) => Some(([s[0]] + line, rest))
  }

  /** Header lines up to the first blank line, and what follows it. */
  function ReadHead(s: seq<byte>): (r: Option<(seq<seq<byte>>, seq<byte>)>)
    ensures r.Some? ==> |r.value.1| < |s|
    decreases |s|
  {
    match SplitLine(s)
    case None => None
    case Some((line, rest)) =>
      if line == [] then Some(([], rest))
      else match ReadHead(rest)
        case None => None
        case Some((lines, after)) => Some(([line] + lines, after))
  }

  predicate StartsWith(s: seq<byte>, prefix: seq<byte>) { prefix <= s }

  function Decimal(s: seq<byte>): Option<nat> {
    if s == [] then Some(0)
    else if ZERO <= s[|s| - 1] <= ZERO + 9 then
      match Decimal(s[..|s| - 1])
      case None => None
      case Some(n) => Some(10 * n + (s[|s| - 1] - ZERO))
    else None
  }

  /** The first Content-Length among the header lines. */
  function ContentLength(lines: seq<seq<byte>>): Option<nat> {
    if lines == [] then None
    else if StartsWith(lines[0], CONTENT_LENGTH) then Decimal(lines[0][|CONTENT_LENGTH|..])
    else ContentLength(lines[1..])
  }

  /** A client on a persistent connection: head, then as many body bytes as announced, then the next head. */
  function Receive(s: seq<byte>): Option<seq<Message>>
    decreases |s|
  {
    if s == [] then Some([])
    else match ReadHead(s)
      case None => None
      case Some((lines, rest)) =>
        match ContentLength(lines)
        case None => None
        case Some(n) =>
          if n > |rest| then None
          else match Receive(rest[n..])
            case None => None
            case Some(more) => Some([Message(lines, rest[..n])] + more)
  }

  // ----- the stream is self-delimiting

  datatype Answer = Answer(route: Route, date: seq<byte>)

  function Stream(answers: seq<Answer>): seq<byte> {
    if answers == [] then [] else Reply(answers[0].route, answers[0].date) + Stream(answers[1..])
  }

  /** The header lines of a response. */
  function HeaderLines(a: Answer): seq<seq<byte>> {
    [Status(a.route), ContentType(a.route), a.date, CONTENT_LENGTH + TwoDigits(|Body(a.route)|),
     SERVER, CONNECTION, KEEP_ALIVE]
  }

  function Messages(answers: seq<Answer>): seq<Message> {
    if answers == [] then []
    else [Message(HeaderLines(answers[0]), Body(answers[0].route))] + Messages(answers[1..])
  }

  /** Lines written out, each with its CRLF, and the blank line. */
  function Head(lines: seq<seq<byte>>): seq<byte> {
    if lines == [] then CRLF else lines[0] + CRLF + Head(lines[1..])
  }

  predicate NoCr(s: seq<byte>) { forall i :: 0 <= i < |s| ==> s[i] != CR }

  lemma {:induction false} SplitAtCrlf(line: seq<byte>, rest: seq<byte>)
    requires NoCr(line)
    ensures SplitLine(line + CRLF + rest) == Some((line, rest))
  {
    var s := line + CRLF + rest;
    if line == [] {
      assert s[2..] == rest;
    } else {
      assert s[1..] == line[1..] + CRLF + rest;
      SplitAtCrlf(line[1..], rest);
      assert [s[0]] + line[1..] == line;
    }
  }

  lemma {:induction false} ReadHeadInverts(lines: seq<seq<byte>>, rest: seq<byte>)
    requires forall i :: 0 <= i < |lines| ==> lines[i] != [] && NoCr(lines[i])
    ensures ReadHead(Head(lines) + rest) == Some((lines, rest))
  {
    if lines == [] {
      assert [] + CRLF + rest == Head(lines) + rest;
      SplitAtCrlf([], rest);
    } else {
      var after := Head(lines[1..]) + rest;
      assert Head(lines) + rest == lines[0] + CRLF + after;
      SplitAtCrlf(lines[0], after);
      ReadHeadInverts(lines[1..], rest);
      assert [lines[0]] + lines[1..] == lines;
    }
  }

  lemma NoCrConcat(a: seq<byte>, b: seq<byte>)
    requires NoCr(a) && NoCr(b)
    ensures NoCr(a + b)
  {
  }

  lemma NoCrTypeFrame()
    ensures NoCr(Ascii("Content-Type: ")) && NoCr(Ascii("; charset=utf-8"))
  {
  }

  lemma NoCrTypes()
    ensures NoCr(Ascii("application/json")) && NoCr(Ascii("text/plain"))
  {
  }

  lemma NoCrKeepAliveParts()
    ensures NoCr(Ascii("Keep-Alive: timeout=5")) && NoCr(Ascii(", max=1000"))
  {
  }

  lemma NoCrStatus(r: Route)
    ensures NoCr(Status(r))
  {
  }

  lemma NoCrContentType(r: Route)
    ensures NoCr(ContentType(r))
  {
    NoCrTypeFrame();
    NoCrTypes();
    hide Ascii, NoCr;
    var t := if r.Json? then Ascii("application/json") else Ascii("text/plain");
    NoCrConcat(Ascii("Content-Type: "), t);
    NoCrConcat(Ascii("Content-Type: ") + t, Ascii("; charset=utf-8"));
  }

  lemma NoCrLength(n: nat)
    requires n < 100
    ensures NoCr(CONTENT_LENGTH + TwoDigits(n))
  {
    assert NoCr(CONTENT_LENGTH);
    NoCrConcat(CONTENT_LENGTH, TwoDigits(n));
  }

  lemma NoCrBase()
    ensures NoCr(SERVER) && NoCr(CONNECTION)
  {
  }

  lemma NoCrKeepAlive()
    ensures NoCr(KEEP_ALIVE)
  {
    NoCrKeepAliveParts();
    hide Ascii, NoCr;
    NoCrConcat(Ascii("Keep-Alive: timeout=5"), Ascii(", max=1000"));
  }

  /** A date line that cannot end early. */
  predicate DateLine(date: seq<byte>) {
    |date| == DATE_LEN && NoCr(date)
  }

  lemma HeaderLinesClean(a: Answer)
    requires DateLine(a.date)
    ensures forall i :: 0 <= i < |HeaderLines(a)| ==> HeaderLines(a)[i] != [] && NoCr(HeaderLines(a)[i])
  {
    NoCrStatus(a.route);
    NoCrContentType(a.route);
    NoCrLength(|Body(a.route)|);
    NoCrBase();
    NoCrKeepAlive();
    hide Status, ContentType, NoCr, Body, TwoDigits;
  }

  lemma HeadCons(line: seq<byte>, lines: seq<seq<byte>>)
    ensures Head([line] + lines) == line + CRLF + Head(lines)
  {
    assert ([line] + lines)[1..] == lines;
  }

  /** A response is its header lines, a blank line and its body. */
  lemma ReplyIsHead(a: Answer)
    ensures Reply(a.route, a.date) == Head(HeaderLines(a)) + Body(a.route)
  {
    hide Head, Status, ContentType, Body, TwoDigits, Ascii;
    var s, c, d, n := Status(a.route), ContentType(a.route), a.date, CONTENT_LENGTH + TwoDigits(|Body(a.route)|);
    HeadBase();
    HeadCons(n, [SERVER, CONNECTION, KEEP_ALIVE]);
    HeadCons(d, [n, SERVER, CONNECTION, KEEP_ALIVE]);
    HeadCons(c, [d, n, SERVER, CONNECTION, KEEP_ALIVE]);
    HeadCons(s, [c, d, n, SERVER, CONNECTION, KEEP_ALIVE]);
    assert HeaderLines(a) == [s] + [c, d, n, SERVER, CONNECTION, KEEP_ALIVE];
    assert [c, d, n, SERVER, CONNECTION, KEEP_ALIVE] == [c] + [d, n, SERVER, CONNECTION, KEEP_ALIVE];
    assert [d, n, SERVER, CONNECTION, KEEP_ALIVE] == [d] + [n, SERVER, CONNECTION, KEEP_ALIVE];
    assert [n, SERVER, CONNECTION, KEEP_ALIVE] == [n] + [SERVER, CONNECTION, KEEP_ALIVE];
    Regroup(s, c, d, CONTENT_LENGTH, TwoDigits(|Body(a.route)|), BaseHeaders(), Body(a.route));
  }

  lemma HeadBase()
    ensures Head([SERVER, CONNECTION, KEEP_ALIVE]) == BaseHeaders()
  {
    hide Ascii;
    HeadCons(KEEP_ALIVE, []);
    HeadCons(CONNECTION, [KEEP_ALIVE]);
    HeadCons(SERVER, [CONNECTION, KEEP_ALIVE]);
    assert [KEEP_ALIVE] == [KEEP_ALIVE] + [];
    assert [CONNECTION, KEEP_ALIVE] == [CONNECTION] + [KEEP_ALIVE];
    assert [SERVER, CONNECTION, KEEP_ALIVE] == [SERVER] + [CONNECTION, KEEP_ALIVE];
    assert SERVER + CRLF + (CONNECTION + CRLF + (KEEP_ALIVE + CRLF + CRLF)) == BaseHeaders();
  }

  lemma Regroup(s: seq<byte>, c: seq<byte>, d: seq<byte>, l: seq<byte>, n: seq<byte>, base: seq<byte>, body: seq<byte>)
    ensures (s + CRLF) + (c + CRLF) + d + CRLF + l + n + CRLF + base + body
         == (s + CRLF + (c + CRLF + (d + CRLF + ((l + n) + CRLF + base)))) + body
  {
  }

  /** Two written digits read back. */
  lemma DecimalTwoDigits(n: nat)
    requires n < 100
    ensures Decimal(TwoDigits(n)) == Some(n)
  {
    var t := TwoDigits(n);
    var tens := [ZERO + n / 10];
    assert t[..1] == tens && tens[..0] == [];
    assert Decimal([]) == Some(0);
    assert Decimal(tens) == Some(n / 10);
  }

  /** The announced length is the body's, unless the date line passes for a Content-Length header. */
  lemma AnnouncedLength(a: Answer)
    ensures ContentLength(HeaderLines(a)) ==
      if StartsWith(a.date, CONTENT_LENGTH) then Decimal(a.date[|CONTENT_LENGTH|..]) else Some(|Body(a.route)|)
  {
    OtherLines(a.route);
    DecimalTwoDigits(|Body(a.route)|);
    hide Status, ContentType, Body, TwoDigits, Ascii, StartsWith, Decimal;
    var n := TwoDigits(|Body(a.route)|);
    var lines := HeaderLines(a);
    assert lines[1..][1..][1..][0] == CONTENT_LENGTH + n && lines[1..][1..][0] == a.date && lines[1..][0] == lines[1];
    PrefixOfSum(CONTENT_LENGTH, n);
    var l1, l2, l3 := lines[1..], lines[1..][1..], lines[1..][1..][1..];
    assert ContentLength(lines) == ContentLength(l1) == ContentLength(l2);
    assert ContentLength(l3) == Some(|Body(a.route)|);
  }

  lemma PrefixOfSum(p: seq<byte>, n: seq<byte>)
    ensures StartsWith(p + n, p) && (p + n)[|p|..] == n
  {
  }

  lemma OtherLines(r: Route)
    ensures !StartsWith(Status(r), CONTENT_LENGTH) && !StartsWith(ContentType(r), CONTENT_LENGTH)
  {
    assert CONTENT_LENGTH[0] == 'C' as int && Status(r)[0] == 'H' as int;
    assert CONTENT_LENGTH[8] == 'L' as int && ContentType(r)[8] == Ascii("Content-Type: ")[8] == 'T' as int;
  }

  /** One response, and whatever follows it. */
  lemma ReceiveOne(a: Answer, rest: seq<byte>)
    requires DateLine(a.date)
    ensures ReadHead(Reply(a.route, a.date) + rest) == Some((HeaderLines(a), Body(a.route) + rest))
  {
    hide Reply, HeaderLines, Body, Head, ReadHead, NoCr;
    ReplyIsHead(a);
    HeaderLinesClean(a);
    ReadHeadInverts(HeaderLines(a), Body(a.route) + rest);
    assert (Head(HeaderLines(a)) + Body(a.route)) + rest == Head(HeaderLines(a)) + (Body(a.route) + rest);
  }

  /** The client takes every stream of responses apart into exactly the routed messages, in order. */
  lemma {:induction false} StreamDecodes(answers: seq<Answer>)
    requires forall i :: 0 <= i < |answers| ==>
      DateLine(answers[i].date) && !StartsWith(answers[i].date, CONTENT_LENGTH)
    ensures Receive(Stream(answers)) == Some(Messages(answers))
  {
    hide Reply, HeaderLines, Body, ReadHead, ContentLength, DateLine, StartsWith;
    if answers != [] {
      var a, rest := answers[0], Stream(answers[1..]);
      ReceiveOne(a, rest);
      AnnouncedLength(a);
      StreamDecodes(answers[1..]);
      var b := Body(a.route);
      assert (b + rest)[..|b|] == b && (b + rest)[|b|..] == rest;
      NotEmpty(a, rest);
    }
  }

  lemma NotEmpty(a: Answer, rest: seq<byte>)
    ensures Reply(a.route, a.date) + rest != []
  {
    hide Status, ContentType, Body, BaseHeaders, TwoDigits, Ascii;
    assert |Reply(a.route, a.date)| >= |CRLF|;
  }

  /** With one date throughout, a client can take apart every stream. */
  ghost predicate Delimited(date: seq<byte>) {
    forall routes: seq<Route> :: Decodes(routes, date)
  }

  predicate Decodes(routes: seq<Route>, date: seq<byte>) {
    var answers := seq(|routes|, i requires 0 <= i < |routes| => Answer(routes[i], date));
    Receive(Stream(answers)) == Some(Messages(answers))
  }

  /** Streams are self-delimiting exactly when the date line does not read as a Content-Length header. */
  lemma SelfDelimitingIff(date: seq<byte>)
    requires DateLine(date)
    ensures Delimited(date) <==> !StartsWith(date, CONTENT_LENGTH)
  {
    if !StartsWith(date, CONTENT_LENGTH) {
      forall routes: seq<Route> ensures Decodes(routes, date) {
        StreamDecodes(seq(|routes|, i requires 0 <= i < |routes| => Answer(routes[i], date)));
      }
    } else {
      hide Decodes;
      if Decodes([Plaintext], date) {
        SingleLength(Plaintext, date);
        if Decodes([Json], date) {
          SingleLength(Json, date);
        }
      }
      assert !(Decodes([Plaintext], date) && Decodes([Json], date));
    }
  }

  lemma SingleLength(r: Route, date: seq<byte>)
    requires DateLine(date) && StartsWith(date, CONTENT_LENGTH) && Decodes([r], date)
    ensures Decimal(date[|CONTENT_LENGTH|..]) == Some(|Body(r)|)
  {
    hide Reply, HeaderLines, Body, ReadHead, ContentLength, DateLine, StartsWith, Decimal;
    var a := Answer(r, date);
    assert seq(1, i requires 0 <= i < 1 => Answer([r][i], date)) == [a];
    assert [a][1..] == [];
    assert Reply(r, date) + [] == Reply(r, date) && Body(r) + [] == Body(r);
    ReceiveOne(a, []);
    AnnouncedLength(a);
    NotEmpty(a, []);
    var s := Reply(r, date);
    assert Stream([a]) == s;
    var got := Receive(s);
    assert got == Some(Messages([a]));
    assert got.value[0].body == Messages([a])[0].body == Body(r);
  }
}
