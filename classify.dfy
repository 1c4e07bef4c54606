/** Record classification (src/tshark-stream-compact.js): which addresses are
    local, how the protocol layer chain is shortened, and how one tab-separated
    capture line becomes a classified packet. */
module Classify {
  import opened Common
  import opened JsText

  /** An instant as js-joda keeps it: whole seconds since the epoch and the nanoseconds within the second. */
  datatype Instant = Instant(epochSecond: int, nano: nat)

  /** `a.compareTo(b) <= 0`. */
  predicate NotAfter(a: Instant, b: Instant)
  {
    a.epochSecond < b.epochSecond || (a.epochSecond == b.epochSecond && a.nano <= b.nano)
  }

  /** `truncatedTo(ChronoUnit.MINUTES)`: floor to the whole minute. */
  function TruncateToMinute(t: Instant): (r: Instant)
    ensures r.epochSecond % 60 == 0 && r.nano == 0
    ensures r.epochSecond <= t.epochSecond < r.epochSecond + 60
  {
    Instant(t.epochSecond - t.epochSecond % 60, 0)
  }

  /** A classified packet as `consumeLine` hands it to the scheduler. */
  datatype Packet = Packet(
    instant: Instant,
    isUpload: bool,
    localIp: string,
    remoteIp: string,
    remotePort: Option<string>,
    frameLen: int,
    protocol: string)

  // ---------------------------------------------------------------------------
  // isLocalIp

  /** `isLocalIp(ip)`: the first dotted part is "10", or the parts start "192", "168",
      or "172" followed by a part that `parseInt` reads as 16 to 31. */
  predicate IsLocalIp(ip: string)
  {
    if ip == "" then false
    else
      var parts := Split(ip, '.');
      || parts[0] == "10"
      || (parts[0] == "192" && Field(parts, 1) == Some("168"))
      || (parts[0] == "172" && SecondOctetIn172Range(ParseIntField(Field(parts, 1))))
  }

  predicate SecondOctetIn172Range(n: Option<int>)
  {
    n.Some? && 16 <= n.value <= 31
  }

  /** The canonical dotted-quad text of an IPv4 address. */
  function DottedQuad(a: nat, b: nat, c: nat, d: nat): string
  {
    DecimalText(a) + "." + DecimalText(b) + "." + DecimalText(c) + "." + DecimalText(d)
  }

  /** The 32-bit value of an address. */
  function Address(a: nat, b: nat, c: nat, d: nat): nat
  {
    a * 16777216 + b * 65536 + c * 256 + d
  }

  /** RFC 1918, section 3: 10.0.0.0/8, 172.16.0.0/12 and 192.168.0.0/16, as prefixes of the 32-bit value. */
  predicate IsPrivateAddress(addr: nat)
  {
    addr / 16777216 == 10 || addr / 1048576 == 2753 || addr / 65536 == 49320
  }

  lemma DigitsHaveNoDot(n: nat)
    ensures Free(DecimalText(n), '.')
  {
    var t := DecimalText(n);
    forall i | 0 <= i < |t| ensures t[i] != '.' {
      assert IsDigit(t[i]);
    }
  }

  /** A dot-free part, a dot, then the rest: the part comes first when splitting on dots. */
  lemma SplitAfterPart(part: string, rest: string)
    requires Free(part, '.')
    ensures Split(part + "." + rest, '.') == [part] + Split(rest, '.')
  {
    assert part + "." + rest == part + ['.'] + rest;
    SplitAtFirst(part, '.', rest);
  }

  /** Four texts joined by a separator, grouped from the right. */
  lemma JoinedRegroup(w: string, x: string, y: string, z: string, sep: string)
    ensures w + sep + x + sep + y + sep + z == w + sep + (x + sep + (y + sep + z))
  {
    assert w + sep + x + sep + y + sep + z == w + sep + (x + sep + y + sep + z);
    assert x + sep + y + sep + z == x + sep + (y + sep + z);
  }

  lemma DottedQuadNested(a: nat, b: nat, c: nat, d: nat)
    ensures DottedQuad(a, b, c, d)
         == DecimalText(a) + "." + (DecimalText(b) + "." + (DecimalText(c) + "." + DecimalText(d)))
  {
    JoinedRegroup(DecimalText(a), DecimalText(b), DecimalText(c), DecimalText(d), ".");
  }

  lemma SplitDottedQuad(a: nat, b: nat, c: nat, d: nat)
    ensures Split(DottedQuad(a, b, c, d), '.') == [DecimalText(a), DecimalText(b), DecimalText(c), DecimalText(d)]
  {
    DigitsHaveNoDot(a);
    DigitsHaveNoDot(b);
    DigitsHaveNoDot(c);
    DigitsHaveNoDot(d);
    var ta, tb, tc, td := DecimalText(a), DecimalText(b), DecimalText(c), DecimalText(d);
    DottedQuadNested(a, b, c, d);
    SplitFree(td, '.');
    SplitAfterPart(tc, td);
    SplitAfterPart(tb, tc + "." + td);
    SplitAfterPart(ta, tb + "." + (tc + "." + td));
  }

  lemma AddressPrefixes(a: nat, b: nat, c: nat, d: nat)
    requires a < 256 && b < 256 && c < 256 && d < 256
    ensures Address(a, b, c, d) / 16777216 == a
    ensures Address(a, b, c, d) / 1048576 == a * 16 + b / 16
    ensures Address(a, b, c, d) / 65536 == a * 256 + b
  {
    var low := c * 256 + d;
    assert 0 <= low < 65536;
    var addr := Address(a, b, c, d);
    assert addr == (a * 256 + b) * 65536 + low;
    assert addr == (a * 16 + b / 16) * 1048576 + ((b % 16) * 65536 + low);
    assert addr == a * 16777216 + (b * 65536 + low);
  }

  /** The decimal text of `n` is that of `m` exactly when `n` is `m`. */
  lemma DecimalTextIs(n: nat, m: nat, t: string)
    requires DecimalText(m) == t
    ensures DecimalText(n) == t <==> n == m
  {
    if DecimalText(n) == t { DecimalTextInjective(n, m); }
  }

  /** `isLocalIp` on an address of four dotted parts looks at the first two parts only. */
  lemma LocalIpOfParts(ip: string, ta: string, tb: string, tc: string, td: string)
    requires ip != "" && Split(ip, '.') == [ta, tb, tc, td]
    ensures IsLocalIp(ip) <==>
      ta == "10" || (ta == "192" && tb == "168") || (ta == "172" && SecondOctetIn172Range(ParseInt(tb)))
  {
    assert Field(Split(ip, '.'), 1) == Some(tb);
  }

  /** `isLocalIp` on the canonical text reads the first two octets as numbers. */
  lemma LocalIpOfOctets(a: nat, b: nat, c: nat, d: nat)
    ensures IsLocalIp(DottedQuad(a, b, c, d)) <==> a == 10 || (a == 192 && b == 168) || (a == 172 && 16 <= b <= 31)
  {
    SplitDottedQuad(a, b, c, d);
    LocalIpOfParts(DottedQuad(a, b, c, d), DecimalText(a), DecimalText(b), DecimalText(c), DecimalText(d));
    DecimalTextIs(a, 10, "10");
    DecimalTextIs(a, 192, "192");
    DecimalTextIs(a, 172, "172");
    DecimalTextIs(b, 168, "168");
    ParseDecimalText(b);
  }

  /** The three private ranges as conditions on the first two octets. */
  lemma PrivateOctets(a: nat, b: nat, c: nat, d: nat)
    requires a < 256 && b < 256 && c < 256 && d < 256
    ensures IsPrivateAddress(Address(a, b, c, d)) <==> a == 10 || (a == 192 && b == 168) || (a == 172 && 16 <= b <= 31)
  {
    AddressPrefixes(a, b, c, d);
  }

  /** `isLocalIp` on the canonical text of an IPv4 address holds exactly for the
      RFC 1918 private ranges. */
  lemma LocalIpIsRfc1918(a: nat, b: nat, c: nat, d: nat)
    requires a < 256 && b < 256 && c < 256 && d < 256
    ensures IsLocalIp(DottedQuad(a, b, c, d)) <==> IsPrivateAddress(Address(a, b, c, d))
  {
    LocalIpOfOctets(a, b, c, d);
    PrivateOctets(a, b, c, d);
  }

  /** Empty text is never local. */
  lemma EmptyIsNotLocal()
    ensures !IsLocalIp("")
  {
  }

  // ---------------------------------------------------------------------------
  // compactProtocols

  /** `protocols.split(':').slice(2, 8).join(':')`. */
  function CompactProtocols(protocols: string): string
  {
    Join(Slice(Split(protocols, ':'), 2, 8), ':')
  }

  /** The outer two layers are dropped and at most the next six are kept:
      the result's layers are exactly segments 2 to 7 of the input's. */
  lemma CompactProtocolsLayers(protocols: string)
    ensures var segs := Split(protocols, ':');
            if |segs| <= 2 then CompactProtocols(protocols) == ""
            else Split(CompactProtocols(protocols), ':') == segs[2..if |segs| < 8 then |segs| else 8]
  {
    var segs := Split(protocols, ':');
    SplitPartsFree(protocols, ':');
    if |segs| > 2 {
      var kept := Slice(segs, 2, 8);
      assert forall i :: 0 <= i < |kept| ==> Free(kept[i], ':') by {
        forall i | 0 <= i < |kept| ensures Free(kept[i], ':') {
          assert kept[i] == segs[2 + i];
        }
      }
      SplitJoin(kept, ':');
    }
  }

  lemma SingleLayerChainIsEmpty()
    ensures CompactProtocols("tcp") == ""
  {
    SplitFree("tcp", ':');
  }

  // ---------------------------------------------------------------------------
  // consumeLine

  /** What `consumeLine` makes of one input line. `BadTimestamp` is the exception
      `Instant.parse` throws, which the line handler logs and swallows. */
  datatype LineResult = Filtered | BadTimestamp | Accepted(packet: Packet)

  /** `parseInt(frameLength, 10) || 0`. */
  function FrameLength(text: string): int
  {
    ParseInt(text).GetOr(0)
  }

  /** The last comma-separated value of an address field (tunnelled packets list several). */
  function LastAddress(field: string): string
  {
    Last(Split(field, ','))
  }

  /** The parsing and classification half of `consumeLine`; `parseInstant` is `Instant.parse`. */
  function ConsumeLine(line: string, parseInstant: string -> Option<Instant>): LineResult
  {
    var f := Split(line, '\t');
    var ipSrc, ipDst := Field(f, 3), Field(f, 4);
    if !Truthy(ipSrc) || !Truthy(ipDst) then Filtered
    else
      var src, dst := LastAddress(ipSrc.value), LastAddress(ipDst.value);
      match parseInstant(f[0])
      case None => BadTimestamp
      case Some(instant) =>
        var isUpload := IsLocalIp(src);
        Accepted(Packet(
          instant,
          isUpload,
          if isUpload then src else dst,
          if isUpload then dst else src,
          if isUpload then Or(Field(f, 6), Field(f, 8)) else Or(Field(f, 5), Field(f, 7)),
          FrameLength(f[1]),
          CompactProtocols(f[2])))
  }

  /** One capture record with its nine fields, as the capture tool prints it. */
  datatype CaptureRecord = CaptureRecord(
    timestamp: string,
    frameLength: nat,
    protocols: string,
    ipSrc: string,
    ipDst: string,
    tcpSrcPort: string,
    tcpDstPort: string,
    udpSrcPort: string,
    udpDstPort: string)

  function RecordFields(r: CaptureRecord): seq<string>
  {
    [r.timestamp, DecimalText(r.frameLength), r.protocols, r.ipSrc, r.ipDst,
     r.tcpSrcPort, r.tcpDstPort, r.udpSrcPort, r.udpDstPort]
  }

  /** The input line for a record. */
  function RenderLine(r: CaptureRecord): string
  {
    Join(RecordFields(r), '\t')
  }

  /** The classification of a record, stated independently of the line format: the
      source address decides the direction, the remote side's TCP port is preferred
      to its UDP port. */
  function Classified(r: CaptureRecord, instant: Instant): Packet
  {
    var up := IsLocalIp(r.ipSrc);
    var remoteTcp := if up then r.tcpDstPort else r.tcpSrcPort;
    var remoteUdp := if up then r.udpDstPort else r.udpSrcPort;
    Packet(instant, up,
      if up then r.ipSrc else r.ipDst,
      if up then r.ipDst else r.ipSrc,
      Some(if remoteTcp != "" then remoteTcp else remoteUdp),
      r.frameLength,
      CompactProtocols(r.protocols))
  }

  predicate PlainField(s: string)
  {
    Free(s, '\t')
  }

  /** No field holds a tab, so the line splits back into the record's fields. */
  predicate TabFreeRecord(r: CaptureRecord)
  {
    && PlainField(r.timestamp) && PlainField(r.protocols)
    && PlainField(r.ipSrc) && PlainField(r.ipDst)
    && PlainField(r.tcpSrcPort) && PlainField(r.tcpDstPort)
    && PlainField(r.udpSrcPort) && PlainField(r.udpDstPort)
  }

  /** A record with a single address on each side (no tunnel). */
  predicate WellFormedRecord(r: CaptureRecord)
  {
    TabFreeRecord(r) && Free(r.ipSrc, ',') && Free(r.ipDst, ',')
  }

  lemma RenderedFields(r: CaptureRecord)
    requires TabFreeRecord(r)
    ensures Split(RenderLine(r), '\t') == RecordFields(r)
  {
    var fs := RecordFields(r);
    var t := DecimalText(r.frameLength);
    assert Free(t, '\t') by {
      forall i | 0 <= i < |t| ensures t[i] != '\t' { assert IsDigit(t[i]); }
    }
    SplitJoin(fs, '\t');
  }

  /** The fields of a rendered record, as `consumeLine` reads them. */
  lemma RenderedFieldValues(r: CaptureRecord)
    requires TabFreeRecord(r)
    ensures var f := Split(RenderLine(r), '\t');
      && |f| == 9 && f[0] == r.timestamp && f[1] == DecimalText(r.frameLength) && f[2] == r.protocols
      && Field(f, 3) == Some(r.ipSrc) && Field(f, 4) == Some(r.ipDst)
      && Field(f, 5) == Some(r.tcpSrcPort) && Field(f, 6) == Some(r.tcpDstPort)
      && Field(f, 7) == Some(r.udpSrcPort) && Field(f, 8) == Some(r.udpDstPort)
  {
    RenderedFields(r);
  }

  /** `consumeLine` on any line that splits into a well-formed record's fields. */
  lemma ConsumeRecordFields(line: string, r: CaptureRecord, parseInstant: string -> Option<Instant>, instant: Instant)
    requires Split(line, '\t') == RecordFields(r)
    requires LastAddress(r.ipSrc) == r.ipSrc && LastAddress(r.ipDst) == r.ipDst
    requires r.ipSrc != "" && r.ipDst != ""
    requires FrameLength(DecimalText(r.frameLength)) == r.frameLength
    requires parseInstant(r.timestamp) == Some(instant)
    ensures ConsumeLine(line, parseInstant) == Accepted(Classified(r, instant))
  {
    var f := Split(line, '\t');
    assert f[0] == r.timestamp && f[1] == DecimalText(r.frameLength) && f[2] == r.protocols;
    assert Field(f, 3) == Some(r.ipSrc) && Field(f, 4) == Some(r.ipDst);
    assert Field(f, 5) == Some(r.tcpSrcPort) && Field(f, 6) == Some(r.tcpDstPort);
    assert Field(f, 7) == Some(r.udpSrcPort) && Field(f, 8) == Some(r.udpDstPort);
  }

  /** A well-formed record whose addresses are both present is accepted, and the
      packet carries exactly the record's classification and frame length. */
  lemma ConsumeRenderedLine(r: CaptureRecord, parseInstant: string -> Option<Instant>, instant: Instant)
    requires WellFormedRecord(r) && r.ipSrc != "" && r.ipDst != ""
    requires parseInstant(r.timestamp) == Some(instant)
    ensures ConsumeLine(RenderLine(r), parseInstant) == Accepted(Classified(r, instant))
  {
    RenderedFields(r);
    SplitFree(r.ipSrc, ',');
    SplitFree(r.ipDst, ',');
    ParseDecimalText(r.frameLength);
    ConsumeRecordFields(RenderLine(r), r, parseInstant, instant);
  }

  /** A record without a source or destination address (an IPv6 packet) is dropped silently. */
  lemma RecordWithoutAddressIsFiltered(r: CaptureRecord, parseInstant: string -> Option<Instant>)
    requires WellFormedRecord(r) && (r.ipSrc == "" || r.ipDst == "")
    ensures ConsumeLine(RenderLine(r), parseInstant) == Filtered
  {
    RenderedFields(r);
  }

  /** A record whose timestamp does not parse is rejected with the logged exception. */
  lemma RecordWithBadTimestamp(r: CaptureRecord, parseInstant: string -> Option<Instant>)
    requires WellFormedRecord(r) && r.ipSrc != "" && r.ipDst != ""
    requires parseInstant(r.timestamp).None?
    ensures ConsumeLine(RenderLine(r), parseInstant) == BadTimestamp
  {
    RenderedFields(r);
  }

  /** A tunnelled address list "outer,inner" is read as its last address. */
  lemma TunnelledAddress(outer: string, inner: string)
    requires Free(inner, ',')
    ensures LastAddress(outer + "," + inner) == inner
  {
    LastOfSplitConcat(outer, inner);
  }

  lemma {:induction false} SplitHasTwoParts(s: string, c: char, k: nat)
    requires k < |s| && s[k] == c
    ensures |Split(s, c)| >= 2
    decreases |s|
  {
    if s[0] != c {
      SplitHasTwoParts(s[1..], c, k - 1);
    }
  }

  lemma {:induction false} LastOfSplitConcat(x: string, y: string)
    requires Free(y, ',')
    ensures Last(Split(x + "," + y, ',')) == y
    decreases |x|
  {
    var s := x + "," + y;
    if |x| == 0 {
      assert s == [','] + y && s[1..] == y;
      SplitFree(y, ',');
    } else {
      assert s[1..] == x[1..] + "," + y;
      LastOfSplitConcat(x[1..], y);
      SplitHasTwoParts(s[1..], ',', |x| - 1);
    }
  }

  /** The direction is decided on the address that is kept: an upload's local address is a
      private one, and a download's remote address is not. */
  lemma ConsumeLineDirection(line: string, parseInstant: string -> Option<Instant>)
    ensures var r := ConsumeLine(line, parseInstant);
      r.Accepted? ==> (r.packet.isUpload ==> IsLocalIp(r.packet.localIp)) && (!r.packet.isUpload ==> !IsLocalIp(r.packet.remoteIp))
  {
  }

  /** Frame lengths that do not parse count as zero. */
  lemma UnparsableLengthIsZero(text: string)
    requires ParseInt(text).None?
    ensures FrameLength(text) == 0
  {
  }
}
