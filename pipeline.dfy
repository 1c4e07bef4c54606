/** The reporting pipeline of src/tshark-stream-compact.js: `resolveLocalHostNames`,
    `report`, and the `LineConsumer` that buffers classified packets and hands a
    batch to `report` whenever a packet arrives more than `REPORT_INTERVAL` seconds
    after the minute the current window started in. */
module Pipeline {
  import opened Common
  import opened JsText
  import opened Classify
  import opened Aggregation
  import opened Rollups
  import opened CsvReport
  import opened HostNames

  /** The files under the data directory: the monthly CSV files, the per-time-frame
      rollup documents, and `ipToHostNameMap.json`. */
  datatype Files = Files(csv: map<string, CsvFile>, rollups: map<string, RollupFile>, hostStore: StoreFile)

  /** The js-joda formatting of an instant (UTC): `uuuu-MM-dd'T'HH`, `uuuu-MM-dd`, `uuuu-MM`, and `toString()`. */
  datatype Calendar = Calendar(hour: Instant -> string, day: Instant -> string, month: Instant -> string,
                               text: Instant -> string)

  /** What `resolveHostNamesByIp` is when `resolveLocalHostNames` calls it: a function from an
      address to its host names, or (as wired at line 9) a promise, which cannot be called. */
  datatype Resolver = NotCallable | Oracle(names: string -> seq<string>)

  /** `Instant.parse`, the calendar, the resolver and `REPORT_INTERVAL`. */
  datatype Env = Env(parseInstant: string -> Option<Instant>, calendar: Calendar, resolver: Resolver, interval: int)

  /** The files after a step, and whether it completed (`false`: it threw). */
  datatype Outcome = Outcome(files: Files, ok: bool)

  // ---------------------------------------------------------------------------
  // resolveLocalHostNames

  /** The host map after the loop of `resolveLocalHostNames`, or `None` when it throws
      (an address missing from the map and a resolver that cannot be called). */
  function RecordLocal(h: HostMap, es: seq<Aggregate>, resolver: Resolver): (r: Option<HostMap>)
    ensures WellFormed(h) && r.Some? ==> WellFormed(r.value)
  {
    if |es| == 0 then Some(h)
    else match RecordLocal(h, es[..|es| - 1], resolver)
      case None => None
      case Some(h1) =>
        var ip := es[|es| - 1].key.localIp;
        if ip in h1.names then Some(h1)
        else match resolver
          case NotCallable => None
          case Oracle(names) => Some(Put(h1, ip, LastName(names(ip))))
  }

  /** The store after `resolveLocalHostNames`: read, add the missing local addresses, always
      write back; `None` when reading or the loop throws (nothing is written then). */
  function StoreAfter(store: StoreFile, es: seq<Aggregate>, resolver: Resolver): Option<StoreFile>
  {
    match ReadStore(store)
    case None => None
    case Some(h) =>
      match RecordLocal(h, es, resolver)
      case None => None
      case Some(h1) => Some(Pairs(Serialize(h1)))
  }

  /** With a callable resolver, every local address of the batch ends up in the map, and every
      address already there keeps its name. */
  lemma {:induction false} RecordLocalCovers(h: HostMap, es: seq<Aggregate>, names: string -> seq<string>)
    ensures RecordLocal(h, es, Oracle(names)).Some?
    ensures forall i :: 0 <= i < |es| ==> es[i].key.localIp in RecordLocal(h, es, Oracle(names)).value.names
    ensures forall ip :: ip in h.names ==>
      ip in RecordLocal(h, es, Oracle(names)).value.names && RecordLocal(h, es, Oracle(names)).value.names[ip] == h.names[ip]
    decreases |es|
  {
    if |es| > 0 {
      var init := es[..|es| - 1];
      RecordLocalCovers(h, init, names);
      forall i | 0 <= i < |es| - 1 ensures es[i].key.localIp in RecordLocal(h, es, Oracle(names)).value.names {
        assert es[i] == init[i];
      }
    }
  }

  /** As wired (the resolver cannot be called), the loop throws as soon as it meets a local
      address that the map does not have. */
  lemma {:induction false} RecordLocalAsWired(h: HostMap, es: seq<Aggregate>)
    ensures RecordLocal(h, es, NotCallable).Some? <==> forall i :: 0 <= i < |es| ==> es[i].key.localIp in h.names
    ensures RecordLocal(h, es, NotCallable).Some? ==> RecordLocal(h, es, NotCallable).value == h
    decreases |es|
  {
    if |es| > 0 {
      var init := es[..|es| - 1];
      RecordLocalAsWired(h, init);
      assert forall i :: 0 <= i < |init| ==> init[i] == es[i];
    }
  }

  /** `resolveLocalHostNames(map)`: read the store (a missing one is empty, an unreadable one
      throws), look up each local address the store does not have, keep the last name, and
      write the whole map back, changed or not. */
  method ResolveLocalHostNames(store: StoreFile, entries: seq<Aggregate>, resolver: Resolver)
    returns (result: StoreFile, ok: bool)
    ensures ok <==> StoreAfter(store, entries, resolver).Some?
    ensures ok ==> result == StoreAfter(store, entries, resolver).value
    ensures !ok ==> result == store
  {
    var read := ReadStore(store);
    if read.None? {
      return store, false;
    }
    var h := read.value;
    var i := 0;
    while i < |entries|
      invariant 0 <= i <= |entries|
      invariant WellFormed(h)
      invariant RecordLocal(read.value, entries[..i], resolver) == Some(h)
    {
      assert entries[..i + 1][..i] == entries[..i];
      var ip := entries[i].key.localIp;
      if ip !in h.names {
        match resolver {
          case NotCallable =>
            assert RecordLocal(read.value, entries[..i + 1], resolver).None?;
            NoRecoveryAfterThrow(read.value, entries, i + 1, resolver);
            return store, false;
          case Oracle(names) =>
            h := Put(h, ip, LastName(names(ip)));
        }
      }
      i := i + 1;
    }
    assert entries[..i] == entries;
    result, ok := Pairs(Serialize(h)), true;
  }

  /** Once the loop has thrown, it stays thrown. */
  lemma {:induction false} NoRecoveryAfterThrow(h: HostMap, es: seq<Aggregate>, n: nat, resolver: Resolver)
    requires n <= |es| && RecordLocal(h, es[..n], resolver).None?
    ensures RecordLocal(h, es, resolver).None?
    decreases |es| - n
  {
    if n < |es| {
      assert es[..n + 1][..n] == es[..n];
      NoRecoveryAfterThrow(h, es, n + 1, resolver);
    } else {
      assert es[..n] == es;
    }
  }

  // ---------------------------------------------------------------------------
  // report

  /** The CSV files after `reportCompact`, or `None` when it throws. */
  function CsvAfter(csv: map<string, CsvFile>, es: seq<Aggregate>, timeFrame: string, text: Instant -> string)
    : Option<map<string, CsvFile>>
  {
    var name := CsvFileName(timeFrame);
    if name in csv && csv[name].Inaccessible? then None
    else Some(csv[name := Lines(StartLines(csv, name) + Rows(SortByInstant(es), text))])
  }

  /** The time frames a report writes rollups for, named after `first`: its hour, day and month. */
  function Frames(calendar: Calendar, first: Instant): seq<string>
  {
    [calendar.hour(first), calendar.day(first), calendar.month(first)]
  }

  /** `report(packets)`: nothing for an empty batch; otherwise compact, record local host
      names, append to the month's CSV, and merge into the hour's, the day's and the month's
      rollups, all named after the first packet's instant. A step that throws ends the report,
      keeping what earlier steps wrote. */
  function ReportEffect(files: Files, packets: seq<Packet>, env: Env): Outcome
  {
    if |packets| == 0 then Outcome(files, true)
    else
      var entries := Compact(packets);
      match StoreAfter(files.hostStore, entries, env.resolver)
      case None => Outcome(files, false)
      case Some(store) => CsvStage(files.(hostStore := store), entries, env.calendar, packets[0].instant)
  }

  /** The steps of `report` after the store is written: the CSV file, then the rollups. */
  function CsvStage(files: Files, entries: seq<Aggregate>, calendar: Calendar, first: Instant): Outcome
  {
    match CsvAfter(files.csv, entries, calendar.month(first), calendar.text)
    case None => Outcome(files, false)
    case Some(csv) => RollupStage(files.(csv := csv), entries, Frames(calendar, first))
  }

  /** The last steps of `report`: the rollups of each time frame. */
  function RollupStage(files: Files, entries: seq<Aggregate>, frames: seq<string>): Outcome
  {
    var written := WriteRollups(files.rollups, entries, frames);
    Outcome(files.(rollups := written.files), written.ok)
  }

  method Report(files: Files, packets: seq<Packet>, env: Env) returns (outcome: Outcome)
    ensures outcome == ReportEffect(files, packets, env)
  {
    if |packets| == 0 {
      return Outcome(files, true);
    }
    var first := packets[0].instant;
    var entries := CompactPackets(packets);
    var store, ok := ResolveLocalHostNames(files.hostStore, entries, env.resolver);
    if !ok {
      return Outcome(files, false);
    }
    var current := files.(hostStore := store);
    var csv, ok2 := ReportCompact(current.csv, entries, env.calendar.month(first), env.calendar.text);
    if !ok2 {
      return Outcome(current, false);
    }
    current := current.(csv := csv);
    var written := ReportTimeFrames(current.rollups, entries, Frames(env.calendar, first));
    outcome := Outcome(current.(rollups := written.files), written.ok);
  }

  /** `report([])` returns at once and writes nothing. */
  lemma ReportEmptyBatch(files: Files, env: Env)
    ensures ReportEffect(files, [], env) == Outcome(files, true)
  {
  }

  /** A complete report touches exactly the CSV file of the first packet's month and the rollups
      of its hour, day and month; every other file is as it was. */
  lemma ReportTouchesFirstPacketFrames(files: Files, packets: seq<Packet>, env: Env)
    requires |packets| > 0 && ReportEffect(files, packets, env).ok
    ensures var frames := Frames(env.calendar, packets[0].instant);
      var out := ReportEffect(files, packets, env).files;
      && CsvFileName(frames[2]) in out.csv
      && (forall k :: 0 <= k < 3 ==> RollupFileName(frames[k]) in out.rollups)
      && (forall n :: n != CsvFileName(frames[2]) ==>
            (n in out.csv <==> n in files.csv) && (n in files.csv ==> out.csv[n] == files.csv[n]))
      && (forall n :: NotAFrameFile(n, frames) ==>
            (n in out.rollups <==> n in files.rollups) && (n in files.rollups ==> out.rollups[n] == files.rollups[n]))
  {
    var frames := Frames(env.calendar, packets[0].instant);
    var entries := Compact(packets);
    var store := StoreAfter(files.hostStore, entries, env.resolver).value;
    var f1 := files.(hostStore := store);
    var csv := CsvAfter(f1.csv, entries, frames[2], env.calendar.text).value;
    WriteRollupsFrame(f1.rollups, entries, frames);
  }

  /** The rollup file of the `k`-th frame (hour, day, month) of `first`. */
  function FrameFile(calendar: Calendar, first: Instant, k: nat): string
    requires k < 3
  {
    RollupFileName(Frames(calendar, first)[k])
  }

  /** `after` holds, for `ip`, the counters of `before` plus the bytes of the packets for `ip`, per direction. */
  predicate AddsBatch(before: Rollup, after: RollupFile, packets: seq<Packet>, ip: string)
  {
    && after.Parsed?
    && Get(after.doc.local, ip) == Counters(Get(before.local, ip).download + PacketTotal(packets, Measure(OfLocal(ip), false)),
                                            Get(before.local, ip).upload + PacketTotal(packets, Measure(OfLocal(ip), true)))
    && Get(after.doc.remote, ip) == Counters(Get(before.remote, ip).download + PacketTotal(packets, Measure(OfRemote(ip), false)),
                                             Get(before.remote, ip).upload + PacketTotal(packets, Measure(OfRemote(ip), true)))
  }

  /** A complete report's rollups are those its three `reportTimeFrame` calls write. */
  lemma ReportRollups(files: Files, packets: seq<Packet>, env: Env)
    requires |packets| > 0
    ensures var written := WriteRollups(files.rollups, Compact(packets), Frames(env.calendar, packets[0].instant));
      ReportEffect(files, packets, env).ok ==> written.ok && ReportEffect(files, packets, env).files.rollups == written.files
  {
    var entries := Compact(packets);
    var frames := Frames(env.calendar, packets[0].instant);
    match StoreAfter(files.hostStore, entries, env.resolver)
    case None =>
    case Some(store) =>
      var f1 := files.(hostStore := store);
      match CsvAfter(f1.csv, entries, env.calendar.month(packets[0].instant), env.calendar.text)
      case None =>
      case Some(csv) =>
        assert ReportEffect(files, packets, env) == RollupStage(f1.(csv := csv), entries, frames);
  }

  /** With different rollup files for hour, day and month, a complete report leaves in each of
      them the document it had with the batch's aggregates merged in. */
  lemma ReportFrameDocument(files: Files, packets: seq<Packet>, env: Env, k: nat)
    requires |packets| > 0 && ReportEffect(files, packets, env).ok
    requires k < 3 && DistinctFiles(Frames(env.calendar, packets[0].instant))
    ensures ReadRollup(files.rollups, FrameFile(env.calendar, packets[0].instant, k)).Some?
    ensures FrameFile(env.calendar, packets[0].instant, k) in ReportEffect(files, packets, env).files.rollups
    ensures ReportEffect(files, packets, env).files.rollups[FrameFile(env.calendar, packets[0].instant, k)]
         == Parsed(MergeAll(ReadRollup(files.rollups, FrameFile(env.calendar, packets[0].instant, k)).value, Compact(packets)))
  {
    ReportRollups(files, packets, env);
    WriteRollupsMerge(files.rollups, Compact(packets), Frames(env.calendar, packets[0].instant), k);
  }

  /** With different rollup files for hour, day and month, a complete report adds to each of
      them, for every address, exactly the bytes of the batch's packets for that address in
      each direction. */
  lemma ReportFrameTotals(files: Files, packets: seq<Packet>, env: Env, k: nat, ip: string)
    requires |packets| > 0 && ReportEffect(files, packets, env).ok
    requires k < 3 && DistinctFiles(Frames(env.calendar, packets[0].instant))
    ensures ReadRollup(files.rollups, FrameFile(env.calendar, packets[0].instant, k)).Some?
    ensures FrameFile(env.calendar, packets[0].instant, k) in ReportEffect(files, packets, env).files.rollups
    ensures AddsBatch(ReadRollup(files.rollups, FrameFile(env.calendar, packets[0].instant, k)).value,
                      ReportEffect(files, packets, env).files.rollups[FrameFile(env.calendar, packets[0].instant, k)],
                      packets, ip)
  {
    ReportFrameDocument(files, packets, env, k);
    var before := ReadRollup(files.rollups, FrameFile(env.calendar, packets[0].instant, k)).value;
    var entries := Compact(packets);
    LocalCounter(before, entries, ip);
    RemoteCounter(before, entries, ip);
    CompactPreservesMeasure(packets, Measure(OfLocal(ip), false));
    CompactPreservesMeasure(packets, Measure(OfLocal(ip), true));
    CompactPreservesMeasure(packets, Measure(OfRemote(ip), false));
    CompactPreservesMeasure(packets, Measure(OfRemote(ip), true));
  }

  /** As wired, a batch with a local address the host store does not list makes `report` throw
      before it writes anything: no CSV line, no rollup, not even the store. */
  lemma AsWiredReportWritesNothing(files: Files, packets: seq<Packet>, env: Env, k: nat)
    requires env.resolver == NotCallable && k < |packets|
    requires ReadStore(files.hostStore).Some? && packets[k].localIp !in ReadStore(files.hostStore).value.names
    ensures ReportEffect(files, packets, env) == Outcome(files, false)
  {
    var h := ReadStore(files.hostStore).value;
    var es := Compact(packets);
    CompactShape(packets);
    assert KeyOf(packets[k]) in PacketKeys(packets);
    var i :| 0 <= i < |es| && es[i].key == KeyOf(packets[k]);
    RecordLocalAsWired(h, es);
  }

  /** Every address of `before` is in `after`, with the same name. */
  predicate Extends(before: HostMap, after: HostMap)
  {
    forall ip :: ip in before.names ==> ip in after.names && after.names[ip] == before.names[ip]
  }

  /** The CSV and rollup steps leave the store alone. */
  lemma CsvStageKeepsStore(files: Files, entries: seq<Aggregate>, calendar: Calendar, first: Instant)
    ensures CsvStage(files, entries, calendar, first).files.hostStore == files.hostStore
  {
  }

  /** With a callable resolver and a readable store, the store `report` leaves is the recorded map. */
  lemma OracleReportStore(files: Files, packets: seq<Packet>, env: Env)
    requires env.resolver.Oracle? && |packets| > 0 && ReadStore(files.hostStore).Some?
    ensures RecordLocal(ReadStore(files.hostStore).value, Compact(packets), env.resolver).Some?
    ensures ReportEffect(files, packets, env).files.hostStore
         == Pairs(Serialize(RecordLocal(ReadStore(files.hostStore).value, Compact(packets), env.resolver).value))
  {
    var h := ReadStore(files.hostStore).value;
    var es := Compact(packets);
    RecordLocalCovers(h, es, env.resolver.names);
    var store := Pairs(Serialize(RecordLocal(h, es, env.resolver).value));
    assert StoreAfter(files.hostStore, es, env.resolver) == Some(store);
    CsvStageKeepsStore(files.(hostStore := store), es, env.calendar, packets[0].instant);
  }

  /** Every packet's local address is the local address of some aggregate. */
  lemma CompactListsLocal(packets: seq<Packet>, k: nat)
    requires k < |packets|
    ensures exists i :: 0 <= i < |Compact(packets)| && Compact(packets)[i].key.localIp == packets[k].localIp
  {
    CompactShape(packets);
    assert KeyOf(packets[k]) in PacketKeys(packets);
    var i :| 0 <= i < |Compact(packets)| && Compact(packets)[i].key == KeyOf(packets[k]);
  }

  /** With a callable resolver, a report writes a store that lists every local address of the
      batch and keeps the names the store already had, whether or not the later steps complete. */
  lemma CorrectedReportRecordsAllLocalNames(files: Files, packets: seq<Packet>, env: Env)
    requires env.resolver.Oracle? && |packets| > 0 && ReadStore(files.hostStore).Some?
    ensures ReadStore(ReportEffect(files, packets, env).files.hostStore).Some?
    ensures forall k :: 0 <= k < |packets| ==>
      packets[k].localIp in ReadStore(ReportEffect(files, packets, env).files.hostStore).value.names
    ensures Extends(ReadStore(files.hostStore).value, ReadStore(ReportEffect(files, packets, env).files.hostStore).value)
  {
    var h := ReadStore(files.hostStore).value;
    var es := Compact(packets);
    OracleReportStore(files, packets, env);
    RecordLocalCovers(h, es, env.resolver.names);
    var h1 := RecordLocal(h, es, env.resolver).value;
    var after := ReportEffect(files, packets, env).files.hostStore;
    assert after == Pairs(Serialize(h1));
    assert ReadStore(after) == Some(h1) by {
      StoreRoundTrip(h1);
    }
    forall k | 0 <= k < |packets| ensures packets[k].localIp in h1.names {
      CompactListsLocal(packets, k);
    }
    assert Extends(h, h1);
  }

  // ---------------------------------------------------------------------------
  // The window scheduler

  /** The scheduler's state: `lastReportTimestamp`, the `packets` buffer, and the batches handed to `report`. */
  datatype Scheduler = Scheduler(last: Option<Instant>, buffer: seq<Packet>, flushed: seq<seq<Packet>>)

  /** An accepted packet, or the end of the input (`flushReport`). */
  datatype Event = Arrival(packet: Packet) | Close

  /** `isReportIntervalReached`'s answer: not for the first packet, then whenever the packet is more
      than `interval` seconds past the last report timestamp. */
  predicate IntervalReached(last: Option<Instant>, t: Instant, interval: int)
  {
    last.Some? && t.epochSecond - last.value.epochSecond > interval
  }

  /** `performReport(packet)` and `flushReport()` on the scheduler's state. */
  function Apply(s: Scheduler, e: Event, interval: int): Scheduler
  {
    match e
    case Close => Scheduler(s.last, [], s.flushed + [s.buffer])
    case Arrival(p) =>
      if s.last.None? then Scheduler(Some(TruncateToMinute(p.instant)), s.buffer + [p], s.flushed)
      else if IntervalReached(s.last, p.instant, interval) then
        Scheduler(Some(TruncateToMinute(p.instant)), [p], s.flushed + [s.buffer])
      else Scheduler(s.last, s.buffer + [p], s.flushed)
  }

  function Replay(events: seq<Event>, interval: int): Scheduler
  {
    if |events| == 0 then Scheduler(None, [], []) else Apply(Replay(events[..|events| - 1], interval), events[|events| - 1], interval)
  }

  /** The packets of the arrivals, in order. */
  function Arrivals(events: seq<Event>): seq<Packet>
  {
    if |events| == 0 then []
    else Arrivals(events[..|events| - 1]) + (match events[|events| - 1] case Arrival(p) => [p] case Close => [])
  }

  /** No packet is lost or duplicated: the batches handed to `report`, followed by the buffer,
      are exactly the accepted packets in arrival order. */
  lemma {:induction false} ReplayConserves(events: seq<Event>, interval: int)
    ensures Flatten(Replay(events, interval).flushed) + Replay(events, interval).buffer == Arrivals(events)
    decreases |events|
  {
    if |events| > 0 {
      var init := events[..|events| - 1];
      ReplayConserves(init, interval);
      var s := Replay(init, interval);
      FlattenAppend(s.flushed, s.buffer);
      match events[|events| - 1]
      case Close =>
      case Arrival(p) =>
        if s.last.Some? && IntervalReached(s.last, p.instant, interval) {
          assert Flatten(s.flushed + [s.buffer]) + [p] == Flatten(s.flushed) + s.buffer + [p];
        } else {
          assert Flatten(s.flushed) + (s.buffer + [p]) == Flatten(s.flushed) + s.buffer + [p];
        }
    }
  }

  /** After the input ends, every accepted packet has been handed to `report`. */
  lemma CloseReportsEverything(events: seq<Event>, interval: int)
    ensures Flatten(Replay(events + [Close], interval).flushed) == Arrivals(events + [Close])
    ensures Replay(events + [Close], interval).buffer == []
  {
    ReplayConserves(events + [Close], interval);
  }

  /** The first packet seeds the timestamp with its minute and is buffered; nothing is reported. */
  lemma FirstPacketSeeds(p: Packet, interval: int)
    ensures Replay([Arrival(p)], interval) == Scheduler(Some(TruncateToMinute(p.instant)), [p], [])
  {
    assert [Arrival(p)][..0] == [];
  }

  /** A window: non-empty, and no packet after its first lies more than `interval` seconds past
      the minute of the first. */
  predicate InWindow(b: seq<Packet>, interval: int)
  {
    |b| > 0 && forall j :: 0 < j < |b| ==> b[j].instant.epochSecond - TruncateToMinute(b[0].instant).epochSecond <= interval
  }

  /** The next window starts with a packet more than `interval` seconds past the minute of the previous window's first packet. */
  predicate Triggers(prev: seq<Packet>, next: seq<Packet>, interval: int)
  {
    |prev| > 0 && |next| > 0 && next[0].instant.epochSecond - TruncateToMinute(prev[0].instant).epochSecond > interval
  }

  predicate OnlyArrivals(events: seq<Event>)
  {
    forall k :: 0 <= k < |events| ==> events[k].Arrival?
  }

  /** While packets arrive, the input is cut into windows: every batch handed to `report`, and the
      buffer, is a window that starts at the packet which set the last report timestamp, and each
      window after the first starts with the packet that overshot the previous one. */
  lemma {:induction false} ReplayWindows(events: seq<Event>, interval: int)
    requires OnlyArrivals(events)
    ensures var s := Replay(events, interval);
      && (s.last.Some? <==> |events| > 0)
      && (s.last.Some? ==> |s.buffer| > 0 && s.last == Some(TruncateToMinute(s.buffer[0].instant)))
      && (s.last.Some? ==> InWindow(s.buffer, interval))
      && (forall k :: 0 <= k < |s.flushed| ==> InWindow(s.flushed[k], interval))
      && (forall k :: 0 < k < |s.flushed| ==> Triggers(s.flushed[k - 1], s.flushed[k], interval))
      && (|s.flushed| > 0 ==> Triggers(s.flushed[|s.flushed| - 1], s.buffer, interval))
    decreases |events|
  {
    if |events| > 0 {
      var init := events[..|events| - 1];
      assert OnlyArrivals(init) by {
        forall k | 0 <= k < |init| ensures init[k].Arrival? { assert init[k] == events[k]; }
      }
      ReplayWindows(init, interval);
      var s := Replay(init, interval);
      var p := events[|events| - 1].packet;
      if s.last.Some? && !IntervalReached(s.last, p.instant, interval) {
        var b := s.buffer + [p];
        assert b[0] == s.buffer[0];
        forall j | 0 < j < |b| ensures b[j].instant.epochSecond - TruncateToMinute(b[0].instant).epochSecond <= interval {
          if j < |s.buffer| { assert b[j] == s.buffer[j]; }
        }
      }
    }
  }

  /** With the default interval of 60 s, a packet exactly 60 s after the window's minute stays in
      the window even when it belongs to the next hour (here 13:59:00 and 14:00:00), so the hour
      report of 13:00 counts it. */
  lemma WindowReachesIntoNextMinute(p: Packet, q: Packet)
    requires p.instant == Instant(1572184740, 0) && q.instant == Instant(1572184800, 0)
    ensures p.instant.epochSecond / 3600 != q.instant.epochSecond / 3600
    ensures Replay([Arrival(p), Arrival(q)], 60) == Scheduler(Some(p.instant), [p, q], [])
  {
    var events := [Arrival(p), Arrival(q)];
    assert events[..1] == [Arrival(p)];
    FirstPacketSeeds(p, 60);
  }

  /** The scheduler as the comment on `truncate` intends it: a report is due once a packet is
      `interval` seconds or more past the last report timestamp, so no window reaches the next minute. */
  predicate IntervalReachedFixed(last: Option<Instant>, t: Instant, interval: int)
  {
    last.Some? && t.epochSecond - last.value.epochSecond >= interval
  }

  function ApplyFixed(s: Scheduler, e: Event, interval: int): Scheduler
  {
    match e
    case Close => Scheduler(s.last, [], s.flushed + [s.buffer])
    case Arrival(p) =>
      if s.last.None? then Scheduler(Some(TruncateToMinute(p.instant)), s.buffer + [p], s.flushed)
      else if IntervalReachedFixed(s.last, p.instant, interval) then
        Scheduler(Some(TruncateToMinute(p.instant)), [p], s.flushed + [s.buffer])
      else Scheduler(s.last, s.buffer + [p], s.flushed)
  }

  function ReplayFixed(events: seq<Event>, interval: int): Scheduler
  {
    if |events| == 0 then Scheduler(None, [], []) else ApplyFixed(ReplayFixed(events[..|events| - 1], interval), events[|events| - 1], interval)
  }

  /** A window that stays strictly within `interval` seconds of the minute of its first packet. */
  predicate WithinWindow(b: seq<Packet>, interval: int)
  {
    |b| > 0 && forall j :: 0 < j < |b| ==> b[j].instant.epochSecond - TruncateToMinute(b[0].instant).epochSecond < interval
  }

  /** Under the corrected rule every batch handed to `report`, and the buffer, lies within
      [minute, minute + interval) of the minute of its first packet. */
  lemma {:induction false} ReplayFixedWindows(events: seq<Event>, interval: int)
    requires OnlyArrivals(events)
    ensures var s := ReplayFixed(events, interval);
      && (s.last.Some? <==> |events| > 0)
      && (s.last.Some? ==> |s.buffer| > 0 && s.last == Some(TruncateToMinute(s.buffer[0].instant)))
      && (s.last.Some? ==> WithinWindow(s.buffer, interval))
      && (forall k :: 0 <= k < |s.flushed| ==> WithinWindow(s.flushed[k], interval))
    decreases |events|
  {
    if |events| > 0 {
      var init := events[..|events| - 1];
      assert OnlyArrivals(init) by {
        forall k | 0 <= k < |init| ensures init[k].Arrival? { assert init[k] == events[k]; }
      }
      ReplayFixedWindows(init, interval);
      var s := ReplayFixed(init, interval);
      var p := events[|events| - 1].packet;
      if s.last.Some? && !IntervalReachedFixed(s.last, p.instant, interval) {
        var b := s.buffer + [p];
        assert b[0] == s.buffer[0];
        forall j | 0 < j < |b| ensures b[j].instant.epochSecond - TruncateToMinute(b[0].instant).epochSecond < interval {
          if j < |s.buffer| { assert b[j] == s.buffer[j]; }
        }
      }
    }
  }

  /** With the default interval of 60 s a corrected window never reaches a later minute than that
      of its first packet, so it never spills into the next hour, day or month. */
  lemma FixedWindowStaysInMinute(b: seq<Packet>)
    requires WithinWindow(b, 60)
    ensures forall j :: 0 <= j < |b| ==> b[j].instant.epochSecond / 60 <= b[0].instant.epochSecond / 60
  {
    var m := TruncateToMinute(b[0].instant).epochSecond;
    assert m / 60 == b[0].instant.epochSecond / 60;
    forall j | 0 <= j < |b| ensures b[j].instant.epochSecond / 60 <= b[0].instant.epochSecond / 60 {
      if j > 0 {
        assert b[j].instant.epochSecond < m + 60;
      }
    }
  }

  /** Under the corrected rule a packet exactly 60 s past the window's minute, such as the second
      packet of `WindowReachesIntoNextMinute`, starts the next report. */
  lemma FixedSplitsAtNextMinute(p: Packet, q: Packet)
    requires q.instant.epochSecond == TruncateToMinute(p.instant).epochSecond + 60
    ensures ReplayFixed([Arrival(p), Arrival(q)], 60) == Scheduler(Some(TruncateToMinute(q.instant)), [q], [[p]])
  {
    var events := [Arrival(p), Arrival(q)];
    assert events[..1] == [Arrival(p)];
    assert [Arrival(p)][..0] == [];
    assert ReplayFixed([Arrival(p)][..0], 60) == Scheduler(None, [], []);
    var first := ReplayFixed([Arrival(p)], 60);
    assert first == ApplyFixed(Scheduler(None, [], []), Arrival(p), 60);
    assert IntervalReachedFixed(first.last, q.instant, 60);
    assert ReplayFixed(events, 60) == ApplyFixed(first, Arrival(q), 60);
    assert first.buffer == [] + [p] == [p];
    assert first.flushed + [first.buffer] == [] + [[p]] == [[p]];
  }

  // ---------------------------------------------------------------------------
  // LineConsumer

  /** The closure `LineConsumer()` returns, with its captured variables as fields. `history`
      records the accepted packets and the end of input; `files` is the data directory. */
  class LineConsumer {
    const env: Env
    var lastReportTimestamp: Option<Instant>
    var packets: seq<Packet>
    var files: Files
    ghost var history: seq<Event>
    ghost var reported: seq<seq<Packet>>

    /** The fields are the scheduler state the history leads to. */
    ghost predicate Valid()
      reads this
    {
      Replay(history, env.interval) == Scheduler(lastReportTimestamp, packets, reported)
    }

    constructor (env: Env, files: Files)
      ensures Valid() && this.env == env && this.files == files && history == []
      ensures lastReportTimestamp.None? && packets == [] && reported == []
    {
      this.env := env;
      this.files := files;
      lastReportTimestamp := None;
      packets := [];
      history := [];
      reported := [];
    }

    /** `isReportIntervalReached(timestamp)`: seed the timestamp on the first call; afterwards
        answer whether the interval has passed, and if so move the timestamp to this minute. */
    method IsReportIntervalReached(timestamp: Instant) returns (reached: bool)
      modifies this
      ensures reached == IntervalReached(old(lastReportTimestamp), timestamp, env.interval)
      ensures lastReportTimestamp == if old(lastReportTimestamp).None? || reached then Some(TruncateToMinute(timestamp))
                                     else old(lastReportTimestamp)
      ensures packets == old(packets) && files == old(files) && history == old(history) && reported == old(reported)
    {
      if lastReportTimestamp.None? {
        lastReportTimestamp := Some(TruncateToMinute(timestamp));
        return false;
      }
      if timestamp.epochSecond - lastReportTimestamp.value.epochSecond > env.interval {
        lastReportTimestamp := Some(TruncateToMinute(timestamp));
        return true;
      }
      return false;
    }

    /** `performReport(packet)`: when the interval is reached, report the buffered packets and
        start a new buffer with this packet; otherwise buffer it. */
    method PerformReport(packet: Packet) returns (ok: bool)
      requires Valid()
      modifies this
      ensures Valid() && history == old(history) + [Arrival(packet)]
      ensures IntervalReached(old(lastReportTimestamp), packet.instant, env.interval) ==>
        && packets == [packet] && reported == old(reported) + [old(packets)]
        && Outcome(files, ok) == ReportEffect(old(files), old(packets), env)
      ensures !IntervalReached(old(lastReportTimestamp), packet.instant, env.interval) ==>
        packets == old(packets) + [packet] && reported == old(reported) && files == old(files) && ok
    {
      var reached := IsReportIntervalReached(packet.instant);
      history := history + [Arrival(packet)];
      if reached {
        var batch := packets;
        packets := [packet];
        reported := reported + [batch];
        var outcome := Report(files, batch, env);
        files, ok := outcome.files, outcome.ok;
      } else {
        packets := packets + [packet];
        ok := true;
      }
    }

    /** `flushReport()`: report whatever is buffered and empty the buffer. */
    method FlushReport() returns (ok: bool)
      requires Valid()
      modifies this
      ensures Valid() && history == old(history) + [Close]
      ensures packets == [] && reported == old(reported) + [old(packets)]
      ensures Outcome(files, ok) == ReportEffect(old(files), old(packets), env)
    {
      var batch := packets;
      packets := [];
      history := history + [Close];
      reported := reported + [batch];
      var outcome := Report(files, batch, env);
      files, ok := outcome.files, outcome.ok;
    }

    /** `consumeLine(line)`: classify the line; a filtered line changes nothing, a bad timestamp
        throws before anything changes, an accepted packet goes to `performReport`. */
    method ConsumeLine(line: string) returns (ok: bool)
      requires Valid()
      modifies this
      ensures Valid()
      ensures match Classify.ConsumeLine(line, env.parseInstant)
        case Filtered => ok && history == old(history) && files == old(files) && packets == old(packets)
        case BadTimestamp => !ok && history == old(history) && files == old(files) && packets == old(packets)
        case Accepted(p) =>
          && history == old(history) + [Arrival(p)]
          && (IntervalReached(old(lastReportTimestamp), p.instant, env.interval) ==>
                && packets == [p] && reported == old(reported) + [old(packets)]
                && Outcome(files, ok) == ReportEffect(old(files), old(packets), env))
          && (!IntervalReached(old(lastReportTimestamp), p.instant, env.interval) ==>
                packets == old(packets) + [p] && reported == old(reported) && files == old(files) && ok)
    {
      match Classify.ConsumeLine(line, env.parseInstant) {
        case Filtered => ok := true;
        case BadTimestamp => ok := false;
        case Accepted(p) => ok := PerformReport(p);
      }
    }
  }
}
