/**
 parse_ipv4_tcp_packets: walks a buffer of concatenated Ethernet frames and keeps the TCP
 ones.  A packet's payload is a sub-range of the buffer, as in the source.
 */
module Packets {
  import opened Bytes

  datatype Packet = Packet(
    srcIp: seq<byte>, dstIp: seq<byte>, srcPort: nat, dstPort: nat, payloadStart: nat, payloadEnd: nat)

  function Be16(hi: byte, lo: byte): nat { hi * 256 + lo }

  // ----- one frame

  /** What the walker decides at one offset: skip by a stride, keep a packet, or stop. */
  datatype Verdict = Skip(stride: nat) | Keep(packet: Packet, stride: nat) | Stop

  function Inspect(b: seq<byte>, offset: nat): (v: Verdict)
    requires offset + 34 <= |b|
    ensures !v.Stop? ==> v.stride >= 14
  {
    if Be16(b[offset + 12], b[offset + 13]) != 0x0800 then Skip(64)
    else
      var ip := offset + 14;
      var ipHeaderLen := b[ip] % 16 * 4;
      var totalLen := Be16(b[ip + 2], b[ip + 3]);
      if ip + totalLen > |b| then Stop
      else if b[ip + 9] != 6 then Skip(14 + totalLen)
      else
        var tcp := ip + ipHeaderLen;
        if tcp + 20 > |b| then Stop
        else
          var payloadStart := tcp + b[tcp + 12] / 16 * 4;
          var payloadEnd := ip + totalLen;
          if payloadStart > |b| || payloadEnd > |b| || payloadStart > payloadEnd then Stop
          else
            Keep(Packet(b[ip + 12..ip + 16], b[ip + 16..ip + 20],
                        Be16(b[tcp], b[tcp + 1]), Be16(b[tcp + 2], b[tcp + 3]),
                        payloadStart, payloadEnd),
                 14 + totalLen)
  }

  /** The packets found from an offset on. */
  function Walk(b: seq<byte>, offset: nat): seq<Packet>
    decreases |b| - offset
  {
    if offset + 34 > |b| then []
    else match Inspect(b, offset)
      case Stop => []
      case Skip(stride) => Walk(b, offset + stride)
      case Keep(p, stride) => [p] + Walk(b, offset + stride)
  }

  /** One turn of the walk, with the packets already found in front. */
  lemma WalkStep(b: seq<byte>, offset: nat, found: seq<Packet>)
    ensures found + Walk(b, offset) ==
      if offset + 34 > |b| then found
      else match Inspect(b, offset)
        case Stop => found
        case Skip(stride) => found + Walk(b, offset + stride)
        case Keep(p, stride) => (found + [p]) + Walk(b, offset + stride)
  {
    hide Inspect;
  }

  /** The source's loop, check by check. */
  method ParseIpv4TcpPackets(buffer: seq<byte>) returns (packets: seq<Packet>)
    ensures packets == Walk(buffer, 0)
  {
    hide Walk;
    packets := [];
    var offset := 0;
    assert Walk(buffer, 0) == packets + Walk(buffer, offset);
    while offset + 14 + 20 <= |buffer|
      invariant Walk(buffer, 0) == packets + Walk(buffer, offset)
      decreases |buffer| - offset
    {
      WalkStep(buffer, offset, packets);
      var ethertype := Be16(buffer[offset + 12], buffer[offset + 13]);
      if ethertype != 0x0800 {
        offset := offset + 64;
        continue;
      }
      var ipStart := offset + 14;
      if ipStart + 20 > |buffer| { break; }
      var ihl := buffer[ipStart] % 16;
      var ipHeaderLen := ihl * 4;
      var totalLen := Be16(buffer[ipStart + 2], buffer[ipStart + 3]);
      if ipStart + totalLen > |buffer| { break; }
      var protocol := buffer[ipStart + 9];
      if protocol != 6 {
        offset := offset + 14 + totalLen;
        continue;
      }
      var srcIp, dstIp := buffer[ipStart + 12..ipStart + 16], buffer[ipStart + 16..ipStart + 20];
      var tcpStart := ipStart + ipHeaderLen;
      if tcpStart + 20 > |buffer| { break; }
      var srcPort := Be16(buffer[tcpStart], buffer[tcpStart + 1]);
      var dstPort := Be16(buffer[tcpStart + 2], buffer[tcpStart + 3]);
      var dataOffset := buffer[tcpStart + 12] / 16 * 4;
      var payloadStart := tcpStart + dataOffset;
      if payloadStart > |buffer| { break; }
      var payloadEnd := ipStart + totalLen;
      if payloadEnd > |buffer| || payloadStart > payloadEnd { break; }
      packets := packets + [Packet(srcIp, dstIp, srcPort, dstPort, payloadStart, payloadEnd)];
      offset := offset + 14 + totalLen;
    }
    WalkStep(buffer, offset, packets);
  }

  // ----- arbitrary bytes

  /** Payloads past `from` plus an Ethernet header, inside a buffer, in order, with a header between any two. */
  ghost predicate Ordered(ps: seq<Packet>, from: nat, len: nat) {
    && (forall i :: 0 <= i < |ps| ==> from + 14 <= ps[i].payloadStart <= ps[i].payloadEnd <= len)
    && (forall i, j :: 0 <= i < j < |ps| ==> ps[i].payloadEnd + 14 <= ps[j].payloadStart)
  }

  /** On any bytes, malformed headers included, the kept payloads are disjoint sub-ranges in order. */
  lemma {:induction false} PayloadsOrdered(b: seq<byte>, offset: nat)
    ensures Ordered(Walk(b, offset), offset, |b|)
    decreases |b| - offset
  {
    hide Inspect, Ordered;
    NothingOrdered(offset, |b|);
    if offset + 34 <= |b| {
      var v := Inspect(b, offset);
      if v.Skip? {
        PayloadsOrdered(b, offset + v.stride);
        OrderedFrom(Walk(b, offset + v.stride), offset, offset + v.stride, |b|);
      } else if v.Keep? {
        PayloadsOrdered(b, offset + v.stride);
        KeepRange(b, offset);
        OrderedCons(v.packet, Walk(b, offset + v.stride), offset, |b|);
      }
    }
  }

  lemma NothingOrdered(from: nat, len: nat)
    ensures Ordered([], from, len)
  {
  }

  lemma OrderedFrom(ps: seq<Packet>, lo: nat, hi: nat, len: nat)
    requires lo <= hi && Ordered(ps, hi, len)
    ensures Ordered(ps, lo, len)
  {
  }

  lemma OrderedCons(p: Packet, ps: seq<Packet>, from: nat, len: nat)
    requires from + 14 <= p.payloadStart <= p.payloadEnd <= len
    requires Ordered(ps, p.payloadEnd, len)
    ensures Ordered([p] + ps, from, len)
  {
    var all := [p] + ps;
    forall i, j | 0 <= i < j < |all| ensures all[i].payloadEnd + 14 <= all[j].payloadStart {
      assert all[j] == ps[j - 1];
    }
  }

  /** A kept payload ends where its frame does. */
  lemma KeepRange(b: seq<byte>, offset: nat)
    requires offset + 34 <= |b| && Inspect(b, offset).Keep?
    ensures var v := Inspect(b, offset);
      offset + 14 <= v.packet.payloadStart <= v.packet.payloadEnd == offset + v.stride <= |b|
  {
  }

  // ----- frames, and the walker as the inverse of their encoding

  /** The fields of an IPv4-over-Ethernet TCP segment that the walker reads, and the bytes it ignores. */
  datatype Segment = Segment(
    macs: seq<byte>, version: nat, tos: byte, fragment: seq<byte>, checksum: seq<byte>,
    srcIp: seq<byte>, dstIp: seq<byte>, ipOptions: seq<byte>,
    srcPort: nat, dstPort: nat, sequence: seq<byte>, reserved: nat, flags: seq<byte>, tcpOptions: seq<byte>,
    payload: seq<byte>)
  {
    /** Header lengths are whole 32-bit words that fit their 4-bit fields; the datagram fits its 16-bit length. */
    predicate Valid() {
      && |macs| == 12 && version < 16 && |fragment| == 5 && |checksum| == 2
      && |srcIp| == 4 && |dstIp| == 4
      && |ipOptions| % 4 == 0 && |ipOptions| <= 40
      && srcPort < 65536 && dstPort < 65536 && |sequence| == 8 && reserved < 16 && |flags| == 7
      && |tcpOptions| % 4 == 0 && |tcpOptions| <= 40
      && TotalLen() <= 65535
    }

    function TotalLen(): nat { 40 + |ipOptions| + |tcpOptions| + |payload| }

    function IpHeader(): (h: seq<byte>)
      requires Valid()
      ensures |h| == 20 + |ipOptions|
    {
      [version * 16 + (5 + |ipOptions| / 4), tos, TotalLen() / 256, TotalLen() % 256]
      + fragment + [6] + checksum + srcIp + dstIp + ipOptions
    }

    function TcpHeader(): (h: seq<byte>)
      requires Valid()
      ensures |h| == 20 + |tcpOptions|
    {
      [srcPort / 256, srcPort % 256, dstPort / 256, dstPort % 256]
      + sequence + [(5 + |tcpOptions| / 4) * 16 + reserved] + flags + tcpOptions
    }

    function Bytes(): (f: seq<byte>)
      requires Valid()
      ensures |f| == 14 + TotalLen()
    {
      macs + [0x08, 0x00] + IpHeader() + TcpHeader() + payload
    }
  }

  /** A frame on the wire: a TCP segment, another IPv4 datagram, or 64 bytes of something else. */
  datatype Frame = Tcp(segment: Segment) | OtherIp(bytes: seq<byte>) | NonIp(bytes: seq<byte>) {

    predicate Valid() {
      match this
      case Tcp(s) => s.Valid()
      case OtherIp(b) =>
        && 34 <= |b| <= 14 + 65535 && Be16(b[12], b[13]) == 0x0800
        && 14 + Be16(b[16], b[17]) == |b| && b[23] != 6
      case NonIp(b) => |b| == 64 && Be16(b[12], b[13]) != 0x0800
    }

    function Bytes(): (f: seq<byte>)
      requires Valid()
      ensures |f| >= 34
    {
      match this
      case Tcp(s) => s.Bytes()
      case OtherIp(b) => b
      case NonIp(b) => b
    }
  }

  function Encode(frames: seq<Frame>): seq<byte>
    requires forall i :: 0 <= i < |frames| ==> frames[i].Valid()
  {
    if frames == [] then [] else frames[0].Bytes() + Encode(frames[1..])
  }

  /** What a receiver learns from a packet. */
  datatype Datagram = Datagram(srcIp: seq<byte>, dstIp: seq<byte>, srcPort: nat, dstPort: nat, payload: seq<byte>)

  function Content(f: Frame): seq<Datagram> {
    match f
    case Tcp(s) => [Datagram(s.srcIp, s.dstIp, s.srcPort, s.dstPort, s.payload)]
    case OtherIp(_) => []
    case NonIp(_) => []
  }

  function Contents(frames: seq<Frame>): seq<Datagram> {
    if frames == [] then [] else Content(frames[0]) + Contents(frames[1..])
  }

  function Read(b: seq<byte>, p: Packet): Datagram {
    Datagram(p.srcIp, p.dstIp, p.srcPort, p.dstPort,
             if p.payloadStart <= p.payloadEnd <= |b| then b[p.payloadStart..p.payloadEnd] else [])
  }

  function ReadAll(b: seq<byte>, ps: seq<Packet>): seq<Datagram> {
    if ps == [] then [] else [Read(b, ps[0])] + ReadAll(b, ps[1..])
  }

  /** The header bytes of a segment, by position. */
  lemma SegmentLayout(s: Segment)
    requires s.Valid()
    ensures var f, t := s.Bytes(), 34 + |s.ipOptions|;
      && f[12] == 0x08 && f[13] == 0x00
      && f[14] == s.version * 16 + 5 + |s.ipOptions| / 4
      && f[16] == s.TotalLen() / 256 && f[17] == s.TotalLen() % 256
      && f[23] == 6
      && f[26..30] == s.srcIp && f[30..34] == s.dstIp
  {
    var f, h := s.Bytes(), s.IpHeader();
    assert forall k :: 14 <= k < 34 ==> f[k] == h[k - 14];
    assert f[26..30] == h[12..16] == s.srcIp;
    assert f[30..34] == h[16..20] == s.dstIp;
  }

  lemma SegmentLayoutTcp(s: Segment)
    requires s.Valid()
    ensures var f, t := s.Bytes(), 34 + |s.ipOptions|;
      && f[t] == s.srcPort / 256 && f[t + 1] == s.srcPort % 256
      && f[t + 2] == s.dstPort / 256 && f[t + 3] == s.dstPort % 256
      && f[t + 12] == (5 + |s.tcpOptions| / 4) * 16 + s.reserved
      && f[t + 20 + |s.tcpOptions|..] == s.payload
  {
    var f, h, t := s.Bytes(), s.TcpHeader(), 34 + |s.ipOptions|;
    assert f[..t] + h + s.payload == f;
    assert forall k :: t <= k < t + 20 ==> f[k] == h[k - t];
  }

  lemma Nibbles(hi: nat, lo: nat)
    requires lo < 16
    ensures (hi * 16 + lo) % 16 == lo && (hi * 16 + lo) / 16 == hi
  {
  }

  /** Inspecting a frame anywhere in a buffer yields its content and steps over exactly its bytes. */
  lemma {:induction false} InspectFrame(b: seq<byte>, offset: nat, f: Frame)
    requires f.Valid() && offset + |f.Bytes()| <= |b|
    requires b[offset..offset + |f.Bytes()|] == f.Bytes()
    ensures match Inspect(b, offset)
      case Stop => false
      case Skip(stride) => stride == |f.Bytes()| && Content(f) == []
      case Keep(p, stride) => stride == |f.Bytes()| && Content(f) == [Read(b, p)]
  {
    var fb := f.Bytes();
    assert forall k :: 0 <= k < |fb| ==> b[offset + k] == fb[k];
    if f.Tcp? {
      InspectSegment(b, offset, f.segment);
    }
  }

  lemma InspectSegment(b: seq<byte>, offset: nat, s: Segment)
    requires s.Valid() && offset + |s.Bytes()| <= |b|
    requires forall k :: 0 <= k < |s.Bytes()| ==> b[offset + k] == s.Bytes()[k]
    ensures var v := Inspect(b, offset);
      v.Keep? && v.stride == |s.Bytes()| && [Read(b, v.packet)] == Content(Tcp(s))
  {
    hide Inspect, Be16, Segment.Bytes, Segment.IpHeader, Segment.TcpHeader, Segment.Valid;
    SegmentAccepted(b, offset, s);
    SegmentFields(b, offset, s);
  }

  /** The fields of a segment, where the walker reads them. */
  lemma SegmentFields(b: seq<byte>, offset: nat, s: Segment)
    requires s.Valid() && offset + 14 + s.TotalLen() <= |b|
    requires forall k :: 0 <= k < |s.Bytes()| ==> b[offset + k] == s.Bytes()[k]
    ensures b[offset + 26..offset + 30] == s.srcIp && b[offset + 30..offset + 34] == s.dstIp
    ensures var t := offset + 34 + |s.ipOptions|;
      && Be16(b[t], b[t + 1]) == s.srcPort && Be16(b[t + 2], b[t + 3]) == s.dstPort
      && b[t + 20 + |s.tcpOptions|..offset + 14 + s.TotalLen()] == s.payload
  {
    hide Segment.Bytes, Segment.IpHeader, Segment.TcpHeader, Be16;
    var f, t := s.Bytes(), 34 + |s.ipOptions|;
    SegmentLayout(s);
    SegmentLayoutTcp(s);
    hide Segment.Valid;
    SameSlice(b, offset, f, 26, 30);
    SameSlice(b, offset, f, 30, 34);
    SameSlice(b, offset, f, t + 20 + |s.tcpOptions|, |f|);
    assert b[offset + t] == f[t] && b[offset + (t + 1)] == f[t + 1];
    assert b[offset + (t + 2)] == f[t + 2] && b[offset + (t + 3)] == f[t + 3];
    Be16Splits(s.srcPort);
    Be16Splits(s.dstPort);
  }

  lemma Be16Splits(n: nat)
    requires n < 65536
    ensures Be16(n / 256, n % 256) == n
  {
  }

  lemma SegmentAccepted(b: seq<byte>, offset: nat, s: Segment)
    requires s.Valid() && offset + |s.Bytes()| <= |b|
    requires forall k :: 0 <= k < |s.Bytes()| ==> b[offset + k] == s.Bytes()[k]
    ensures Inspect(b, offset) == Accepted(b, offset, s)
  {
    hide Inspect, Segment.Bytes, Segment.IpHeader, Segment.TcpHeader;
    var f, t := s.Bytes(), 34 + |s.ipOptions|;
    SegmentLayout(s);
    SegmentLayoutTcp(s);
    Nibbles(s.version, 5 + |s.ipOptions| / 4);
    Nibbles(5 + |s.tcpOptions| / 4, s.reserved);
    assert b[offset + 12] == f[12] && b[offset + 13] == f[13] && b[offset + 14] == f[14];
    assert b[offset + 16] == f[16] && b[offset + 17] == f[17] && b[offset + 23] == f[23];
    assert b[offset + (t + 12)] == f[t + 12];
    SegmentInspected(b, offset, s);
  }

  /** The verdict on a segment that starts at `offset`. */
  function Accepted(b: seq<byte>, offset: nat, s: Segment): Verdict
    requires s.Valid() && offset + 14 + s.TotalLen() <= |b|
  {
    var t := offset + 34 + |s.ipOptions|;
    Keep(Packet(b[offset + 26..offset + 30], b[offset + 30..offset + 34],
                Be16(b[t], b[t + 1]), Be16(b[t + 2], b[t + 3]),
                t + 20 + |s.tcpOptions|, offset + 14 + s.TotalLen()),
         14 + s.TotalLen())
  }

  /** Every length check passes on a whole segment. */
  lemma SegmentInspected(b: seq<byte>, offset: nat, s: Segment)
    requires s.Valid() && offset + 14 + s.TotalLen() <= |b|
    requires b[offset + 12] == 0x08 && b[offset + 13] == 0x00
    requires b[offset + 14] % 16 == 5 + |s.ipOptions| / 4
    requires b[offset + 16] == s.TotalLen() / 256 && b[offset + 17] == s.TotalLen() % 256
    requires b[offset + 23] == 6
    requires b[offset + 46 + |s.ipOptions|] / 16 == 5 + |s.tcpOptions| / 4
    ensures Inspect(b, offset) == Accepted(b, offset, s)
  {
  }

  lemma SameSlice(b: seq<byte>, offset: nat, f: seq<byte>, lo: nat, hi: nat)
    requires offset + |f| <= |b| && lo <= hi <= |f|
    requires forall k :: 0 <= k < |f| ==> b[offset + k] == f[k]
    ensures b[offset + lo..offset + hi] == f[lo..hi]
  {
    forall k | 0 <= k < hi - lo ensures b[offset + lo..offset + hi][k] == f[lo..hi][k] {
      assert b[offset + (lo + k)] == f[lo + k];
    }
  }

  /** One frame at the front of the walk contributes its content and nothing else. */
  lemma WalkFrame(b: seq<byte>, offset: nat, f: Frame)
    requires f.Valid() && offset + |f.Bytes()| <= |b|
    requires b[offset..offset + |f.Bytes()|] == f.Bytes()
    ensures ReadAll(b, Walk(b, offset)) == Content(f) + ReadAll(b, Walk(b, offset + |f.Bytes()|))
  {
    hide Inspect, Frame.Bytes, Frame.Valid, Content, Read;
    InspectFrame(b, offset, f);
  }

  /** Walking from where the frames begin yields exactly the TCP segments' contents, in order, then what the rest yields. */
  lemma {:induction false} WalkFrames(pre: seq<byte>, frames: seq<Frame>, rest: seq<byte>)
    requires forall i :: 0 <= i < |frames| ==> frames[i].Valid()
    ensures var b := pre + (Encode(frames) + rest);
      ReadAll(b, Walk(b, |pre|)) == Contents(frames) + ReadAll(b, Walk(b, |pre| + |Encode(frames)|))
    decreases |frames|
  {
    hide Inspect, Walk, ReadAll, Frame.Bytes, Frame.Valid, Content;
    var b := pre + (Encode(frames) + rest);
    if frames == [] {
      assert Contents(frames) + ReadAll(b, Walk(b, |pre|)) == ReadAll(b, Walk(b, |pre|));
    } else {
      var f, more := frames[0], Encode(frames[1..]) + rest;
      var pre' := pre + f.Bytes();
      assert Encode(frames) + rest == f.Bytes() + more;
      Middle(pre, f.Bytes(), more);
      WalkFrame(b, |pre|, f);
      WalkFrames(pre', frames[1..], rest);
      ContentsAssoc(frames, ReadAll(b, Walk(b, |pre| + |Encode(frames)|)));
    }
  }

  lemma ContentsAssoc(frames: seq<Frame>, rest: seq<Datagram>)
    requires frames != []
    ensures Content(frames[0]) + (Contents(frames[1..]) + rest) == Contents(frames) + rest
  {
    hide Content;
  }

  /** When the walk finds nothing in the rest, it finds exactly the frames. */
  lemma {:induction false} WalkEnds(frames: seq<Frame>, rest: seq<byte>)
    requires forall i :: 0 <= i < |frames| ==> frames[i].Valid()
    requires Walk(Encode(frames) + rest, |Encode(frames)|) == []
    ensures ReadAll(Encode(frames) + rest, Walk(Encode(frames) + rest, 0)) == Contents(frames)
  {
    hide *;
    ReadNothing(Encode(frames) + rest);
    var b, pre := Encode(frames) + rest, [];
    assert pre + b == b && |pre| == 0;
    WalkFrames(pre, frames, rest);
    assert ReadAll(b, Walk(b, 0)) == Contents(frames) + ReadAll(b, []);
  }

  lemma ReadNothing(b: seq<byte>)
    ensures ReadAll(b, []) == []
  {
  }

  /** The walker inverts the encoder on every list of frames. */
  lemma {:induction false} WalkInverts(frames: seq<Frame>)
    requires forall i :: 0 <= i < |frames| ==> frames[i].Valid()
    ensures ReadAll(Encode(frames), Walk(Encode(frames), 0)) == Contents(frames)
  {
    hide *;
    var b := Encode(frames);
    assert b + [] == b;
    WalkNothing(b);
    WalkEnds(frames, []);
  }

  lemma WalkNothing(b: seq<byte>)
    ensures Walk(b + [], |b|) == []
  {
  }

  // ----- captures that end in the middle of a frame

  /**
   The bytes begin an IPv4 frame that is longer than they are, or a TCP segment whose header is, or whose
   header runs past its own datagram.
   */
  ghost predicate Broken(t: seq<byte>) {
    && |t| >= 34 && t[12] == 0x08 && t[13] == 0x00
    && var total: nat := (t[16] as int) * 256 + t[17];
      || 14 + total > |t|
      || (t[23] == 6
          && var tcp := 14 + t[14] % 16 * 4;
             tcp + 20 > |t| || tcp + t[tcp + 12] / 16 * 4 > 14 + total)
  }

  /** The walk ends at such bytes, and at fewer than 34 of any kind. */
  lemma StopsAtBroken(pre: seq<byte>, t: seq<byte>)
    requires Broken(t) || |t| < 34
    ensures Walk(pre + t, |pre|) == []
  {
    var b := pre + t;
    assert forall k :: 0 <= k < |t| ==> b[|pre| + k] == t[k];
    if Broken(t) {
      assert b[|pre| + 12] == t[12] && b[|pre| + 13] == t[13] && b[|pre| + 16] == t[16] && b[|pre| + 17] == t[17];
      assert b[|pre| + 14] == t[14] && b[|pre| + 23] == t[23];
      var tcp := 14 + t[14] % 16 * 4;
      if tcp + 20 <= |t| { assert b[|pre| + (tcp + 12)] == t[tcp + 12]; }
      assert Inspect(b, |pre|).Stop?;
    }
  }

  /** Frames followed by a broken one, whatever its bytes, yield exactly the frames. */
  lemma {:induction false} BrokenTail(frames: seq<Frame>, t: seq<byte>)
    requires forall i :: 0 <= i < |frames| ==> frames[i].Valid()
    requires Broken(t) || |t| < 34
    ensures ReadAll(Encode(frames) + t, Walk(Encode(frames) + t, 0)) == Contents(frames)
  {
    StopsAtBroken(Encode(frames), t);
    WalkEnds(frames, t);
  }

  /** A capture cut anywhere within a frame yields exactly the frames before it. */
  lemma {:induction false} TruncatedCapture(frames: seq<Frame>, f: Frame, k: nat)
    requires forall i :: 0 <= i < |frames| ==> frames[i].Valid()
    requires f.Valid() && k < |f.Bytes()|
    ensures var b := Encode(frames) + f.Bytes()[..k];
      ReadAll(b, Walk(b, 0)) == Contents(frames)
  {
    hide Frame.Valid, Frame.Bytes, Broken, Walk, ReadAll, Encode, Contents;
    if k < 34 || !f.NonIp? {
      CutIsBroken(f, k);
      BrokenTail(frames, f.Bytes()[..k]);
    } else {
      SkipsCut(Encode(frames), f, k);
      WalkEnds(frames, f.Bytes()[..k]);
    }
  }

  lemma CutIsBroken(f: Frame, k: nat)
    requires f.Valid() && k < |f.Bytes()| && (k < 34 || !f.NonIp?)
    ensures k < 34 || Broken(f.Bytes()[..k])
  {
    if k >= 34 {
      match f
      case Tcp(s) => SegmentLayout(s);
      case OtherIp(_) =>
    }
  }

  lemma SkipsCut(pre: seq<byte>, f: Frame, k: nat)
    requires f.Valid() && f.NonIp? && 34 <= k < |f.Bytes()|
    ensures Walk(pre + f.Bytes()[..k], |pre|) == []
  {
    var b, t := pre + f.Bytes()[..k], f.Bytes()[..k];
    assert b[|pre| + 12] == t[12] && b[|pre| + 13] == t[13];
    assert Walk(b, |pre| + 64) == [];
  }
}
