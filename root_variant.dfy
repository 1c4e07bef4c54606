/** The root-level tshark-stream-compact.js: the synchronous predecessor of the
    pipeline. It prints the aggregates of each batch to standard output instead of
    appending them to a CSV file, keeps no host names, reports 10 seconds after the
    (untruncated) instant of the packet that triggered the previous report, and
    pushes every packet before it checks the interval, so the triggering packet is
    the last one of the batch it starts. It has no error handling: a timestamp that
    does not parse, or a rollup file that does not, ends the process. */
module ConsoleCompact {
  import opened Common
  import opened JsText
  import opened Classify
  import opened Aggregation
  import opened Rollups
  import CsvReport
  import Pipeline

  /** `LOG_INTERVAL`, in seconds. */
  const LogInterval := 10

  /** The header line, with the trailing tab every printed line has. */
  const ConsoleHeader := CsvReport.Header + "\t"

  // ---------------------------------------------------------------------------
  // Printed lines

  /** Each field followed by the separator: the line that `line += `${field}\t`` builds. */
  function Terminated(fields: seq<string>, c: char): string
  {
    if |fields| == 0 then "" else fields[0] + [c] + Terminated(fields[1..], c)
  }

  lemma {:induction false} TerminatedIsJoin(fields: seq<string>, c: char)
    requires |fields| > 0
    ensures Terminated(fields, c) == Join(fields, c) + [c]
    decreases |fields|
  {
    if |fields| > 1 {
      TerminatedIsJoin(fields[1..], c);
    }
  }

  /** The line `reportCompact` prints for an aggregate. */
  function ConsoleRow(e: Aggregate, text: Instant -> string): string
  {
    Terminated(CsvReport.RowFields(e, text), '\t')
  }

  /** A printed line is the CSV line of the later version with a tab appended, and is
      never the header. */
  lemma ConsoleRowShape(e: Aggregate, text: Instant -> string)
    ensures ConsoleRow(e, text) == CsvReport.Row(e, text) + "\t"
    ensures ConsoleRow(e, text) != ConsoleHeader
  {
    TerminatedIsJoin(CsvReport.RowFields(e, text), '\t');
    CsvReport.RowIsNotHeader(e, text);
    SameEnding(CsvReport.Row(e, text), CsvReport.Header, '\t');
  }

  lemma SameEnding(x: string, y: string, c: char)
    ensures x + [c] == y + [c] ==> x == y
  {
    if x + [c] == y + [c] {
      assert x == (x + [c])[..|x|];
    }
  }

  /** The printed lines for the aggregates, in the order of the map's keys (unsorted). */
  function ConsoleRows(es: seq<Aggregate>, text: Instant -> string): (r: seq<string>)
    ensures |r| == |es|
  {
    if |es| == 0 then [] else ConsoleRows(es[..|es| - 1], text) + [ConsoleRow(es[|es| - 1], text)]
  }

  lemma {:induction false} ConsoleRowsAt(es: seq<Aggregate>, text: Instant -> string)
    ensures forall i :: 0 <= i < |es| ==> ConsoleRows(es, text)[i] == ConsoleRow(es[i], text)
    decreases |es|
  {
    if |es| > 0 {
      ConsoleRowsAt(es[..|es| - 1], text);
    }
  }

  /** Standard output as this process leaves it: the header once, at the top. */
  predicate HeaderOnTop(console: seq<string>)
  {
    |console| > 0 ==> console[0] == ConsoleHeader && forall i :: 0 < i < |console| ==> console[i] != ConsoleHeader
  }

  /** What standard output holds after `reportCompact`: the header when it was not yet printed,
      then one line per aggregate. */
  function ConsoleAfter(console: seq<string>, es: seq<Aggregate>, text: Instant -> string): seq<string>
  {
    (if |console| == 0 then [ConsoleHeader] else console) + ConsoleRows(es, text)
  }

  /** Printing a report keeps the header single and on top, and prints every aggregate's line
      after what was there. */
  lemma ConsoleAfterKeepsHeader(console: seq<string>, es: seq<Aggregate>, text: Instant -> string)
    requires HeaderOnTop(console)
    ensures HeaderOnTop(ConsoleAfter(console, es, text))
    ensures |ConsoleAfter(console, es, text)| == (if |console| == 0 then 1 else |console|) + |es|
    ensures forall i :: 0 <= i < |es| ==>
      ConsoleAfter(console, es, text)[(if |console| == 0 then 1 else |console|) + i] == ConsoleRow(es[i], text)
  {
    ConsoleRowsAt(es, text);
    var start := if |console| == 0 then [ConsoleHeader] else console;
    var out := ConsoleAfter(console, es, text);
    forall i | 0 < i < |out| ensures out[i] != ConsoleHeader {
      if i >= |start| {
        ConsoleRowShape(es[i - |start|], text);
      }
    }
  }

  lemma ConsoleAfterSnoc(console: seq<string>, es: seq<Aggregate>, i: nat, text: Instant -> string)
    requires i < |es|
    ensures ConsoleAfter(console, es[..i + 1], text) == ConsoleAfter(console, es[..i], text) + [ConsoleRow(es[i], text)]
  {
    assert es[..i + 1][..i] == es[..i];
  }

  // ---------------------------------------------------------------------------
  // The line handler

  /** The parsing and filtering part of the `'line'` handler. `Instant.parse` comes first, so a
      bad timestamp ends the process even on a line that would be dropped; the direction is
      decided on the whole source field, before the last of several addresses is picked;
      a line without a local address, a remote address or a port is dropped. */
  function ParseLine(line: string, parseInstant: string -> Option<Instant>): LineResult
  {
    var f := Split(line, '\t');
    match parseInstant(f[0])
    case None => BadTimestamp
    case Some(instant) =>
      var ipSrc, ipDst := Field(f, 3), Field(f, 4);
      var isUpload := ipSrc.Some? && IsLocalIp(ipSrc.value);
      var local := if isUpload then ipSrc else ipDst;
      var remote := if isUpload then ipDst else ipSrc;
      var port := if isUpload then Or(Field(f, 6), Field(f, 8)) else Or(Field(f, 5), Field(f, 7));
      if !Truthy(local) || !Truthy(remote) || !Truthy(port) then Filtered
      else
        Accepted(Packet(instant, isUpload, LastAddress(local.value), LastAddress(remote.value), port,
                        FrameLength(f[1]), CompactProtocols(f[2])))
  }

  /** On records with a single address per side, the root handler classifies exactly as the
      later version does, except that it also drops records without a remote port. */
  lemma ParseLineAgrees(r: CaptureRecord, parseInstant: string -> Option<Instant>, instant: Instant)
    requires WellFormedRecord(r) && r.ipSrc != "" && r.ipDst != ""
    requires parseInstant(r.timestamp) == Some(instant)
    ensures ParseLine(RenderLine(r), parseInstant)
         == if Truthy(Classified(r, instant).remotePort) then Accepted(Classified(r, instant)) else Filtered
    ensures Classify.ConsumeLine(RenderLine(r), parseInstant) == Accepted(Classified(r, instant))
  {
    RenderedFields(r);
    SplitFree(r.ipSrc, ',');
    SplitFree(r.ipDst, ',');
    ParseDecimalText(r.frameLength);
    ConsumeRenderedLine(r, parseInstant, instant);
  }

  /** A line whose timestamp does not parse ends the process, whatever else it holds. */
  lemma BadTimestampFirst(line: string, parseInstant: string -> Option<Instant>)
    requires parseInstant(Split(line, '\t')[0]).None?
    ensures ParseLine(line, parseInstant) == BadTimestamp
  {
  }

  lemma FreeConcat(x: string, y: string, ch: char)
    requires Free(x, ch) && Free(y, ch)
    ensures Free(x + y, ch)
  {
    forall i | 0 <= i < |x + y| ensures (x + y)[i] != ch {
      if i >= |x| { assert (x + y)[i] == y[i - |x|]; }
    }
  }

  /** The text of an address holds only digits and dots. */
  lemma DottedQuadFree(a: nat, b: nat, c: nat, d: nat, ch: char)
    requires ch != '.' && !IsDigit(ch)
    ensures Free(DottedQuad(a, b, c, d), ch)
  {
    forall n: nat ensures Free(DecimalText(n), ch) {
      var t := DecimalText(n);
      forall i | 0 <= i < |t| ensures t[i] != ch { assert IsDigit(t[i]); }
    }
    FreeConcat(DecimalText(a), ".", ch);
    FreeConcat(DecimalText(a) + ".", DecimalText(b), ch);
    FreeConcat(DecimalText(a) + "." + DecimalText(b), ".", ch);
    FreeConcat(DecimalText(a) + "." + DecimalText(b) + ".", DecimalText(c), ch);
    FreeConcat(DecimalText(a) + "." + DecimalText(b) + "." + DecimalText(c), ".", ch);
    FreeConcat(DecimalText(a) + "." + DecimalText(b) + "." + DecimalText(c) + ".", DecimalText(d), ch);
  }

  /** A tunnel's address field: the outer address, a comma, the inner address. */
  function Tunnelled(outer: string, inner: string): string
  {
    outer + "," + inner
  }

  lemma TunnelledFree(a: nat, b: nat, c: nat, d: nat, e: nat, f: nat, g: nat, h: nat)
    ensures Free(Tunnelled(DottedQuad(a, b, c, d), DottedQuad(e, f, g, h)), '\t')
    ensures LastAddress(Tunnelled(DottedQuad(a, b, c, d), DottedQuad(e, f, g, h))) == DottedQuad(e, f, g, h)
  {
    DottedQuadFree(a, b, c, d, '\t');
    DottedQuadFree(e, f, g, h, '\t');
    DottedQuadFree(e, f, g, h, ',');
    FreeConcat(DottedQuad(a, b, c, d), ",", '\t');
    FreeConcat(DottedQuad(a, b, c, d) + ",", DottedQuad(e, f, g, h), '\t');
    TunnelledAddress(DottedQuad(a, b, c, d), DottedQuad(e, f, g, h));
  }

  /** `isLocalIp` on a tunnel's field reads only the outer address's first part. */
  lemma TunnelledIsLocal(b: nat, c: nat, d: nat, inner: string)
    ensures IsLocalIp(Tunnelled(DottedQuad(10, b, c, d), inner))
  {
    DigitsHaveNoDot(10);
    var rest := DecimalText(b) + "." + DecimalText(c) + "." + DecimalText(d) + "," + inner;
    assert Tunnelled(DottedQuad(10, b, c, d), inner) == DecimalText(10) + ['.'] + rest;
    SplitAtFirst(DecimalText(10), '.', rest);
    assert DecimalText(10) == "10";
  }

  /** Real addresses meet the premises below: the field "10.0.0.1,8.8.8.8" passes `isLocalIp`
      (on its first part), its last address 8.8.8.8 does not, and 192.168.1.5 does. */
  lemma TunnelAddresses()
    ensures IsLocalIp(Tunnelled(DottedQuad(10, 0, 0, 1), DottedQuad(8, 8, 8, 8)))
    ensures !IsLocalIp(DottedQuad(8, 8, 8, 8)) && IsLocalIp(DottedQuad(192, 168, 1, 5))
    ensures Free(Tunnelled(DottedQuad(10, 0, 0, 1), DottedQuad(8, 8, 8, 8)), '\t')
    ensures Free(DottedQuad(8, 8, 8, 8), ',')
  {
    TunnelledIsLocal(0, 0, 1, DottedQuad(8, 8, 8, 8));
    TunnelledFree(10, 0, 0, 1, 8, 8, 8, 8);
    DottedQuadFree(8, 8, 8, 8, ',');
    LocalIpOfOctets(8, 8, 8, 8);
    LocalIpOfOctets(192, 168, 1, 5);
  }

  /** As written, a tunnelled packet whose outer source is private and whose inner source is
      public (a download through the tunnel) is counted as an upload, with the public inner
      source as its local address and the destination's port as the remote port. */
  lemma TunnelCountedAsUpload(r: CaptureRecord, outer: string, inner: string,
                              parseInstant: string -> Option<Instant>, instant: Instant)
    requires TabFreeRecord(r) && parseInstant(r.timestamp) == Some(instant)
    requires r.ipSrc == Tunnelled(outer, inner) && Free(inner, ',')
    requires IsLocalIp(r.ipSrc) && !IsLocalIp(inner)
    requires r.ipDst != "" && r.tcpDstPort != ""
    ensures ParseLine(RenderLine(r), parseInstant)
         == Accepted(Packet(instant, true, inner, LastAddress(r.ipDst), Some(r.tcpDstPort),
                            r.frameLength, CompactProtocols(r.protocols)))
    ensures !IsLocalIp(ParseLine(RenderLine(r), parseInstant).packet.localIp)
  {
    RenderedFieldValues(r);
    TunnelledAddress(outer, inner);
    ParseDecimalText(r.frameLength);
  }

  /** The later version picks the last address first, and counts the same packet as a download
      to the destination's address from the public inner source, on the source's port. */
  lemma TunnelCountedAsDownload(r: CaptureRecord, outer: string, inner: string,
                                parseInstant: string -> Option<Instant>, instant: Instant)
    requires TabFreeRecord(r) && parseInstant(r.timestamp) == Some(instant)
    requires r.ipSrc == Tunnelled(outer, inner) && Free(inner, ',')
    requires !IsLocalIp(inner)
    requires r.ipDst != ""
    ensures Classify.ConsumeLine(RenderLine(r), parseInstant)
         == Accepted(Packet(instant, false, LastAddress(r.ipDst), inner, Or(Some(r.tcpSrcPort), Some(r.udpSrcPort)),
                            r.frameLength, CompactProtocols(r.protocols)))
  {
    RenderedFieldValues(r);
    TunnelledAddress(outer, inner);
    ParseDecimalText(r.frameLength);
  }

  // ---------------------------------------------------------------------------
  // The batching of the root handler

  /** `lastTimestamp`, `packets`, and the batches handed to `report`. */
  datatype Batcher = Batcher(last: Option<Instant>, buffer: seq<Packet>, flushed: seq<seq<Packet>>)

  /** `isReportIntervalReached`'s answer after the first call: more than 10 s past `lastTimestamp`. */
  predicate Reached(last: Option<Instant>, t: Instant)
  {
    last.Some? && t.epochSecond - last.value.epochSecond > LogInterval
  }

  /** One accepted packet: push it, then ask `isReportIntervalReached`; the first packet only sets
      the timestamp, a packet past the interval moves it to its own instant and reports the buffer. */
  function Push(s: Batcher, p: Packet): Batcher
  {
    var buffer := s.buffer + [p];
    if s.last.None? then Batcher(Some(p.instant), buffer, s.flushed)
    else if Reached(s.last, p.instant) then Batcher(Some(p.instant), [], s.flushed + [buffer])
    else Batcher(s.last, buffer, s.flushed)
  }

  function Feed(ps: seq<Packet>): Batcher
  {
    if |ps| == 0 then Batcher(None, [], []) else Push(Feed(ps[..|ps| - 1]), ps[|ps| - 1])
  }

  /** No packet is lost or reported twice: the batches, then the buffer, are the accepted packets. */
  lemma {:induction false} FeedConserves(ps: seq<Packet>)
    ensures Flatten(Feed(ps).flushed) + Feed(ps).buffer == ps
    decreases |ps|
  {
    if |ps| > 0 {
      var init, p := ps[..|ps| - 1], ps[|ps| - 1];
      FeedConserves(init);
      var s := Feed(init);
      assert ps == init + [p];
      FeedSnoc(init, p);
      if s.last.Some? && Reached(s.last, p.instant) {
        FlattenAppend(s.flushed, s.buffer + [p]);
        assert Feed(ps) == Batcher(Some(p.instant), [], s.flushed + [s.buffer + [p]]);
      } else {
        assert Feed(ps).flushed == s.flushed && Feed(ps).buffer == s.buffer + [p];
        assert Flatten(s.flushed) + (s.buffer + [p]) == (Flatten(s.flushed) + s.buffer) + [p];
      }
    }
  }

  /** Every packet of `b` is within 10 s of `anchor`. */
  predicate Open(b: seq<Packet>, anchor: Instant)
  {
    forall j :: 0 <= j < |b| ==> b[j].instant.epochSecond - anchor.epochSecond <= LogInterval
  }

  /** A reported batch: its last packet is more than 10 s past `anchor`, the others are not. */
  predicate Closed(b: seq<Packet>, anchor: Instant)
  {
    |b| > 0 && b[|b| - 1].instant.epochSecond - anchor.epochSecond > LogInterval && Open(b[..|b| - 1], anchor)
  }

  /** `b` is a batch reported right after `prev`: it closes more than 10 s after `prev`'s last packet. */
  predicate Follows(prev: seq<Packet>, b: seq<Packet>)
  {
    |prev| > 0 && Closed(b, prev[|prev| - 1].instant)
  }

  /** The input is cut into batches that each end with the packet that reached the interval:
      the first batch is measured from the first packet, each later one from the last packet of
      the batch before, and the buffer from the last reported packet (or the first packet). */
  lemma {:induction false} FeedBatches(ps: seq<Packet>)
    ensures var s := Feed(ps);
      && (s.last.Some? <==> |ps| > 0)
      && (|ps| > 0 && |s.flushed| == 0 ==> s.last == Some(ps[0].instant))
      && (|ps| > 0 && |s.flushed| > 0 ==> Closed(s.flushed[0], ps[0].instant))
      && (forall k :: 0 < k < |s.flushed| ==> Follows(s.flushed[k - 1], s.flushed[k]))
      && (|s.flushed| > 0 ==>
            (|s.flushed[|s.flushed| - 1]| > 0
             && s.last == Some(s.flushed[|s.flushed| - 1][|s.flushed[|s.flushed| - 1]| - 1].instant)))
      && (s.last.Some? ==> Open(s.buffer, s.last.value))
    decreases |ps|
  {
    if |ps| > 0 {
      var init, p := ps[..|ps| - 1], ps[|ps| - 1];
      FeedBatches(init);
      var s := Feed(init);
      if |init| > 0 {
        assert init[0] == ps[0];
      }
      if s.last.Some? && Reached(s.last, p.instant) {
        var b := s.buffer + [p];
        assert b[..|b| - 1] == s.buffer;
        assert Closed(b, s.last.value);
      } else if s.last.Some? {
        assert Open(s.buffer + [p], s.last.value) by {
          var b := s.buffer + [p];
          forall j | 0 <= j < |b| ensures b[j].instant.epochSecond - s.last.value.epochSecond <= LogInterval {
            if j < |s.buffer| { assert b[j] == s.buffer[j]; }
          }
        }
      } else {
        assert s.buffer == [] by { FeedConserves(init); }
      }
    }
  }

  lemma FeedSnoc(ps: seq<Packet>, p: Packet)
    ensures Feed(ps + [p]) == Push(Feed(ps), p)
  {
    assert (ps + [p])[..|ps|] == ps;
  }

  /** The first packet never triggers a report: it sets the timestamp to its own instant. */
  lemma FirstPacketOnlySeeds(p: Packet)
    ensures Feed([p]) == Batcher(Some(p.instant), [p], [])
  {
    assert [p][..0] == [];
  }

  // ---------------------------------------------------------------------------
  // The process

  /** The module-level state of the script: `packets`, `lastTimestamp`, `isHeaderPrinted`,
      standard output, the rollup files under `WWW_ROOT`, and whether an exception has ended the
      process. `accepted` and `reported` record the packets pushed and the batches reported. */
  class ConsoleConsumer {
    const parseInstant: string -> Option<Instant>
    const calendar: Pipeline.Calendar
    var packets: seq<Packet>
    var lastTimestamp: Option<Instant>
    var isHeaderPrinted: bool
    var console: seq<string>
    var rollups: map<string, RollupFile>
    var crashed: bool
    ghost var accepted: seq<Packet>
    ghost var reported: seq<seq<Packet>>

    /** While the process runs, the buffer and the timestamp are those the accepted packets lead
        to. */
    ghost predicate Valid()
      reads this
    {
      (!crashed ==> Feed(accepted) == Batcher(lastTimestamp, packets, reported)) && Printing()
    }

    /** The header flag says whether standard output has anything, and the header is printed
        once, first. */
    ghost predicate Printing()
      reads this
    {
      (isHeaderPrinted <==> |console| > 0) && HeaderOnTop(console)
    }

    constructor (parseInstant: string -> Option<Instant>, calendar: Pipeline.Calendar, rollups: map<string, RollupFile>)
      ensures Valid() && !crashed && console == [] && packets == [] && accepted == []
      ensures this.parseInstant == parseInstant && this.calendar == calendar && this.rollups == rollups
    {
      this.parseInstant := parseInstant;
      this.calendar := calendar;
      this.rollups := rollups;
      packets := [];
      lastTimestamp := None;
      isHeaderPrinted := false;
      console := [];
      crashed := false;
      accepted := [];
      reported := [];
    }

    /** `printHeader()`: print the header the first time only. */
    method PrintHeader()
      requires Printing()
      modifies this
      ensures Printing() && isHeaderPrinted
      ensures console == if |old(console)| == 0 then [ConsoleHeader] else old(console)
      ensures packets == old(packets) && lastTimestamp == old(lastTimestamp) && rollups == old(rollups)
      ensures crashed == old(crashed) && accepted == old(accepted) && reported == old(reported)
    {
      if !isHeaderPrinted {
        isHeaderPrinted := true;
        console := console + [ConsoleHeader];
      }
    }

    /** `reportCompact(map)`: the header if not yet printed, then one line per aggregate in the
        order of the map's keys. */
    method ReportCompact(entries: seq<Aggregate>)
      requires Printing()
      modifies this
      ensures Printing() && console == ConsoleAfter(old(console), entries, calendar.text)
      ensures packets == old(packets) && lastTimestamp == old(lastTimestamp) && rollups == old(rollups)
      ensures crashed == old(crashed) && accepted == old(accepted) && reported == old(reported)
    {
      ghost var before := console;
      ConsoleAfterKeepsHeader(before, entries, calendar.text);
      PrintHeader();
      var i := 0;
      while i < |entries|
        invariant 0 <= i <= |entries| && isHeaderPrinted
        invariant console == ConsoleAfter(before, entries[..i], calendar.text)
        invariant packets == old(packets) && lastTimestamp == old(lastTimestamp) && rollups == old(rollups)
        invariant crashed == old(crashed) && accepted == old(accepted) && reported == old(reported)
      {
        ConsoleAfterSnoc(before, entries, i, calendar.text);
        console := console + [ConsoleRow(entries[i], calendar.text)];
        i := i + 1;
      }
      assert entries[..i] == entries;
    }

    /** `reportTimeFrame(map, formatter)`: nothing for an empty map; otherwise the time frame is that
        of the first key's instant, and its document gets the entries added (an unparsable file
        throws, which ends the process). */
    method ReportTimeFrame(entries: seq<Aggregate>, format: Instant -> string)
      requires Printing() && !crashed
      modifies this
      ensures Printing()
      ensures |entries| == 0 ==> rollups == old(rollups) && !crashed
      ensures |entries| > 0 ==> match RollupsAfter(old(rollups), entries, format(entries[0].instant))
        case None => crashed && rollups == old(rollups)
        case Some(next) => !crashed && rollups == next
      ensures packets == old(packets) && lastTimestamp == old(lastTimestamp) && console == old(console)
      ensures accepted == old(accepted) && reported == old(reported) && isHeaderPrinted == old(isHeaderPrinted)
    {
      if |entries| == 0 {
        return;
      }
      var timeFrame := format(entries[0].instant);
      var next, ok := Rollups.ReportTimeFrame(rollups, entries, timeFrame);
      rollups := next;
      crashed := !ok;
    }

    /** `report(packets)`: compact, print, then add the batch into the hour's, the day's and the
        month's documents, all named after the first key's instant, which is the first packet's. */
    method Report(batch: seq<Packet>)
      requires Printing() && !crashed
      modifies this
      ensures Printing()
      ensures console == ConsoleAfter(old(console), Compact(batch), calendar.text)
      ensures |batch| == 0 ==> rollups == old(rollups) && !crashed
      ensures |batch| > 0 ==>
        var written := WriteRollups(old(rollups), Compact(batch), Pipeline.Frames(calendar, batch[0].instant));
        rollups == written.files && crashed == !written.ok
      ensures packets == old(packets) && lastTimestamp == old(lastTimestamp)
      ensures accepted == old(accepted) && reported == old(reported)
    {
      var entries := CompactPackets(batch);
      ReportCompact(entries);
      if |batch| == 0 {
        ReportTimeFrame(entries, calendar.hour);
        return;
      }
      CompactFirstEntry(batch);
      var frames := Pipeline.Frames(calendar, batch[0].instant);
      ghost var first := rollups;
      ReportTimeFrame(entries, calendar.hour);
      if crashed {
        return;
      }
      assert WriteRollups(first, entries, frames) == WriteRollups(rollups, entries, frames[1..]);
      ghost var second := rollups;
      ReportTimeFrame(entries, calendar.day);
      if crashed {
        return;
      }
      assert frames[1..][0] == frames[1] && frames[1..][1..] == [frames[2]];
      assert WriteRollups(second, entries, frames[1..]) == WriteRollups(rollups, entries, [frames[2]]);
      ghost var third := rollups;
      ReportTimeFrame(entries, calendar.month);
      if crashed {
        return;
      }
      assert [frames[2]][1..] == [];
      assert WriteRollups(third, entries, [frames[2]]) == WriteRollups(rollups, entries, []);
    }

    /** `isReportIntervalReached(timestamp)`: the first call stores the timestamp as it is and
        answers no; later calls answer whether more than 10 s have passed, and only then move
        the timestamp. */
    method IsReportIntervalReached(timestamp: Instant) returns (reached: bool)
      modifies this
      ensures reached == Reached(old(lastTimestamp), timestamp)
      ensures lastTimestamp == if old(lastTimestamp).None? || reached then Some(timestamp) else old(lastTimestamp)
      ensures packets == old(packets) && console == old(console) && rollups == old(rollups)
      ensures crashed == old(crashed) && isHeaderPrinted == old(isHeaderPrinted)
      ensures accepted == old(accepted) && reported == old(reported)
    {
      if lastTimestamp.None? {
        lastTimestamp := Some(timestamp);
        return false;
      }
      if timestamp.epochSecond - lastTimestamp.value.epochSecond > LogInterval {
        lastTimestamp := Some(timestamp);
        return true;
      }
      return false;
    }

    /** An accepted packet: it is pushed, and when it reaches the interval the whole buffer,
        this packet last, is reported and the buffer emptied. */
    method Accept(p: Packet)
      requires Valid() && !crashed
      modifies this
      ensures Valid()
      ensures accepted == old(accepted) + [p]
      ensures Reached(old(lastTimestamp), p.instant) ==>
        && console == ConsoleAfter(old(console), Compact(old(packets) + [p]), calendar.text)
        && var written := WriteRollups(old(rollups), Compact(old(packets) + [p]),
                                       Pipeline.Frames(calendar, (old(packets) + [p])[0].instant));
           rollups == written.files && crashed == !written.ok
      ensures !Reached(old(lastTimestamp), p.instant) ==>
        !crashed && console == old(console) && rollups == old(rollups) && packets == old(packets) + [p]
    {
      FeedSnoc(accepted, p);
      packets := packets + [p];
      accepted := accepted + [p];
      var reached := IsReportIntervalReached(p.instant);
      if reached {
        Report(packets);
        if !crashed {
          reported := reported + [packets];
          packets := [];
        }
      }
    }

    /** The `'line'` handler: once the process has ended, nothing happens; a bad timestamp ends
        it; a dropped line changes nothing; an accepted packet is pushed, and when it reaches
        the interval the whole buffer, this packet last, is reported and the buffer emptied. */
    method ConsumeLine(line: string)
      requires Valid()
      modifies this
      ensures Valid()
      ensures old(crashed) ==> crashed && console == old(console) && rollups == old(rollups)
      ensures !old(crashed) ==> match ParseLine(line, parseInstant)
        case BadTimestamp => crashed && console == old(console) && rollups == old(rollups)
        case Filtered => !crashed && console == old(console) && rollups == old(rollups) && accepted == old(accepted)
        case Accepted(p) =>
          && accepted == old(accepted) + [p]
          && (Reached(old(lastTimestamp), p.instant) ==>
                && console == ConsoleAfter(old(console), Compact(old(packets) + [p]), calendar.text)
                && var written := WriteRollups(old(rollups), Compact(old(packets) + [p]),
                                               Pipeline.Frames(calendar, (old(packets) + [p])[0].instant));
                   rollups == written.files && crashed == !written.ok)
          && (!Reached(old(lastTimestamp), p.instant) ==>
                !crashed && console == old(console) && rollups == old(rollups) && packets == old(packets) + [p])
    {
      if crashed {
        return;
      }
      match ParseLine(line, parseInstant) {
        case BadTimestamp =>
          crashed := true;
        case Filtered =>
        case Accepted(p) =>
          Accept(p);
      }
    }
  }
}
