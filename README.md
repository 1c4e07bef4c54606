# Fritz!Box capture accounting, modelled in Dafny

pithus-fritz-capture reads the packet capture of a home router as text lines, one per
packet. It classifies each packet as an upload or a download of a local address. It
buffers packets for a reporting interval and compacts each batch into one aggregate per
flow (local address, remote address, remote port, protocol chain). It then reports each
batch three ways:

- a monthly CSV file with one line per aggregate;
- per-hour, per-day and per-month JSON rollups that add the batch's bytes into running
  counters per local and per remote address;
- a disk-persisted cache of reverse-DNS names for the local addresses.

The model covers these source files:

- `src/tshark-stream-compact.js`, the current pipeline.
- `src/resolve-hostnames-by-ip.js`, the hostname cache.
- Three earlier scripts at the repository root:
  - `tshark-stream-compact.js`, which prints to standard output;
  - `compact-tshark-stream.js` and `compact-json-stream.js`, which classify only when
    compacting and use a fixed home-network prefix.

Modules, one concept each:

| module | file | what it holds |
|---|---|---|
| `Common` | common.dfy | `Option` (JavaScript's `undefined`), flattening of batches |
| `JsText` | js_text.dfy | the JavaScript built-ins the code relies on: `split`, `join`, `slice`, `\|\|` on strings, `parseInt`, decimal text |
| `Classify` | classify.dfy | `isLocalIp`, `compactProtocols`, minute truncation, and the parsing half of `consumeLine` |
| `Aggregation` | aggregation.dfy | `compact`: the fold, its loop, and what it preserves |
| `CsvReport` | csv.dfy | `reportCompact`: the stable sort by instant, the lines, and the single header |
| `Rollups` | rollup.dfy | `readJsonFromFile` and `reportTimeFrame`: the additive merge into hour, day and month documents |
| `HostNames` | hostnames.dfy | the cache object of `resolve-hostnames-by-ip.js`, with its store file |
| `Pipeline` | pipeline.dfy | `resolveLocalHostNames`, `report`, the window scheduler and the `LineConsumer` closure, as a class |
| `ConsoleCompact` | root_variant.dfy | the root `tshark-stream-compact.js` |
| `LegacyCompact` | early_variants.dfy | `compact-tshark-stream.js` and `compact-json-stream.js` |

Files are values: a map from file name to content, where a file that does not parse is
its own case. Effects that can throw return the new files together with a flag. The
following are parameters:

- `Instant.parse`;
- the js-joda calendar formatting (hour, day and month names, `toString`);
- the reverse-DNS answers;
- `REPORT_INTERVAL`.

Where the system's own description and its code differ, the model follows the code:

- The hostname cache has no lease or expiry. An address is looked up once per cache and kept
  (`HostNames.ResolvedIdempotent`, `HostNames.LookedUpOnce`).
- `compact`'s counters and keys do not depend on the order of the packets
  (`Aggregation.CompactCountersOrderIndependent`). The aggregate's instant does: it is the
  first packet's (`Aggregation.InstantDependsOnOrder`).
- A window closes only when a packet lies strictly more than the interval past the window's
  minute. So a window can take in a packet of the next minute, hour or day
  (`Pipeline.WindowReachesIntoNextMinute`). This contradicts the comment on `truncate`; see Findings.
- Flushes are not serialised by any lock in the code. The model handles each line
  atomically (see Left out).
- `parseInt` keeps a sign, so a frame length can be negative. It is modelled as an `int`.

## Model

| member | source | states |
|---|---|---|
| Classify.TruncateToMinute | src/tshark-stream-compact.js:209 | the result is a whole minute (seconds a multiple of 60, no nanoseconds), not after the instant and less than 60 s before it |
| Classify.LocalIpIsRfc1918 | src/tshark-stream-compact.js:192-198 | on the dotted-quad text of an IPv4 address, `isLocalIp` holds exactly when the address lies in 10.0.0.0/8, 172.16.0.0/12 or 192.168.0.0/16 (RFC 1918, section 3) |
| Classify.EmptyIsNotLocal | src/tshark-stream-compact.js:193 | the empty address is never local |
| Classify.CompactProtocolsLayers | src/tshark-stream-compact.js:200-202 | the compacted chain's layers are exactly layers 2 to 7 of the input; a chain of two layers or fewer compacts to the empty text |
| Classify.SingleLayerChainIsEmpty | src/tshark-stream-compact.js:200-202 | a one-layer chain compacts to the empty text |
| Classify.ConsumeRenderedLine | src/tshark-stream-compact.js:239-268 | a line printed from a record with one address per side and both addresses present is accepted. Its packet has the direction, addresses, port, length and protocol that the record-level classification assigns |
| Classify.RecordWithoutAddressIsFiltered | src/tshark-stream-compact.js:252-255 | a record with an empty source or destination address (IPv6) is dropped |
| Classify.RecordWithBadTimestamp | src/tshark-stream-compact.js:262 | a kept record whose timestamp does not parse ends in the parse exception |
| Classify.TunnelledAddress | src/tshark-stream-compact.js:257-260 | of a comma-joined address list, the last address is kept |
| Classify.ConsumeLineDirection | src/tshark-stream-compact.js:259-265 | every accepted upload has a local source address; every accepted download has a remote address that is not local |
| Classify.UnparsableLengthIsZero | src/tshark-stream-compact.js:268 | a frame length that does not parse counts as 0 |
| Aggregation.IndexOfKey | src/tshark-stream-compact.js:31-32 | the lookup finds an aggregate with the key, or answers -1 exactly when none has it |
| Aggregation.CompactPreservesMeasure | src/tshark-stream-compact.js:18-51 | for every selection of flows (all, one flow, one local address, one remote address) and each direction, the aggregates count exactly the bytes the packets carry |
| Aggregation.CompactKeepsTotals | src/tshark-stream-compact.js:18-51 | the total upload and the total download bytes are preserved |
| Aggregation.CompactShape | src/tshark-stream-compact.js:31-42 | one aggregate per distinct flow key of the input, no key twice |
| Aggregation.CompactCounters | src/tshark-stream-compact.js:18-51 | each aggregate's `upload` and `download` are the sums of its flow's upload and download packet lengths |
| Aggregation.CompactCountersOrderIndependent | src/tshark-stream-compact.js:18-51 | reordering the packets leaves every flow's counters unchanged |
| Aggregation.CompactKeysOrderIndependent | src/tshark-stream-compact.js:18-51 | reordering the packets leaves the set of flows unchanged |
| Aggregation.CompactInstants | src/tshark-stream-compact.js:31-41 | each aggregate's instant is that of the first packet of its flow |
| Aggregation.CompactFirstEntry | src/tshark-stream-compact.js:31-41 | the first aggregate is the first packet's flow, with that packet's instant |
| Aggregation.InstantDependsOnOrder | src/tshark-stream-compact.js:32-41 | two packets of one flow with different instants, given in the two orders, produce different representative instants |
| Aggregation.CompactPackets | src/tshark-stream-compact.js:18-51 | the loop yields distinct flows, every packet's flow, and counters equal to the per-flow sums, the same as the fold |
| Aggregation.SourceKeyInjective | src/tshark-stream-compact.js:31 | for addresses and ports without ':' and a port other than the text "undefined", two flows share the textual key exactly when they are equal |
| Aggregation.SourceKeyCollides | src/tshark-stream-compact.js:31 | with a ':' inside an address, two different flows share one textual key |
| CsvReport.SortByInstantCorrect | src/tshark-stream-compact.js:70-72 | the sorted aggregates are in ascending instant order, a permutation of the input, and stable: equal instants keep their order |
| CsvReport.RowIsNotHeader | src/tshark-stream-compact.js:62-82 | no aggregate's line equals the header line |
| CsvReport.RowRoundTrip | src/tshark-stream-compact.js:75-82 | with tab-free text fields a line splits back into its seven fields, and its last two parse back to the download and upload counters |
| CsvReport.RowsKeepHeaderOnce | src/tshark-stream-compact.js:56-84 | appending aggregate lines to a file with a single header on top keeps a single header on top |
| CsvReport.AppendRows | src/tshark-stream-compact.js:74-84 | the loop appends one line per aggregate, in order, after the existing lines |
| CsvReport.ReportCompact | src/tshark-stream-compact.js:54-85 | a missing file is created with the header; an unreadable one throws and changes nothing; otherwise the sorted aggregates' lines are appended and no other file changes |
| Rollups.LocalCounter | src/tshark-stream-compact.js:113-123 | after the merge, a local address holds its earlier counters (`{0, 0}` when absent) plus the counters of its entries |
| Rollups.RemoteCounter | src/tshark-stream-compact.js:125-134 | the same for a remote address |
| Rollups.MergeAllAddresses | src/tshark-stream-compact.js:113-135 | no address is removed, and only the entries' addresses are added |
| Rollups.MergeAllCounters | src/tshark-stream-compact.js:113-135 | the address sets and all counters after the merge, for every address |
| Rollups.MergeAllConcat | src/tshark-stream-compact.js:107-137 | merging two batches one after the other is merging their concatenation, so reports accumulate across restarts |
| Rollups.MergeAllOrderIndependent | src/tshark-stream-compact.js:113-135 | the merged document does not depend on the order of the entries |
| Rollups.MergeTwiceDoubles | src/tshark-stream-compact.js:113-135 | the merge is additive, not idempotent: merging a batch twice doubles every counter |
| Rollups.RollupOfPackets | src/tshark-stream-compact.js:182-187 | compacting a batch and merging it into a fresh document gives each address the bytes of its packets, per direction |
| Rollups.MergeIntoDocument | src/tshark-stream-compact.js:113-135 | the loop's document equals the merge, with the addresses and counters above |
| Rollups.ReportTimeFrame | src/tshark-stream-compact.js:107-137 | `${timeFrame}.json` is replaced by the merge of its document, empty when missing; an unparsable file throws and nothing changes |
| Rollups.WriteRollupsFrame | src/tshark-stream-compact.js:185-187 | after three completed writes, each frame's file is a document; no other file changes, whether or not the writes complete |
| Rollups.WriteRollupsMerge | src/tshark-stream-compact.js:185-187 | with distinct files per frame, each frame's file becomes its earlier document merged with the batch |
| Rollups.ReportTimeFrames | src/tshark-stream-compact.js:185-187 | the three calls in a row, stopping at the first that throws |
| HostNames.Put | src/resolve-hostnames-by-ip.js:45 | `Map.set` binds the name and keeps every key listed exactly once in insertion order |
| HostNames.Deserialize | src/resolve-hostnames-by-ip.js:13 | `new Map(pairs)` yields a map whose order lists each key once |
| HostNames.StoreRoundTrip | src/resolve-hostnames-by-ip.js:13-25 | writing the map as pairs and reading them back gives the same map, order included |
| HostNames.ResolvedEffect | src/resolve-hostnames-by-ip.js:39-53 | after `resolveIp` the address is present; a known one changes nothing; a new one gets the last name of its lookup and goes to the end; other addresses keep their names |
| HostNames.FailedLookupIsUnresolved | src/resolve-hostnames-by-ip.js:31-46 | a new address whose lookup fails is stored as 'unresolved' |
| HostNames.ResolvedIdempotent | src/resolve-hostnames-by-ip.js:39-53 | resolving an address twice is resolving it once (there is no expiry) |
| HostNames.ResolvedAllEffect | src/resolve-hostnames-by-ip.js:55-61 | `resolveIps` keeps every earlier name and adds every requested address with the name that address's own `resolveIp` gave it |
| HostNames.ResolvedAllNew | src/resolve-hostnames-by-ip.js:42-46 | an address the map lacked is in it after `resolveIps(ips)` exactly when `ips` lists it, with the last name of its lookup |
| HostNames.LookedUpOnce | src/resolve-hostnames-by-ip.js:39-61 | no address is sent to the name server twice, nor one already in the map |
| HostNames.HostNameCache.constructor | src/resolve-hostnames-by-ip.js:28-29 | the cache starts from the given map, with no lookups |
| HostNames.HostNameCache.GetHostNameAfterResolving | src/resolve-hostnames-by-ip.js:40-63 | after `resolveIps(ips)`: an address the map had keeps its answer; an address newly resolved answers the last name of its one lookup, 'unresolved' for a failed lookup and 'unknown' for none or an empty name; any other address is 'unknown' |
| HostNames.HostNameCache.ResolveIp | src/resolve-hostnames-by-ip.js:39-53 | the map after the call is the resolved map. A lookup happens and the store is rewritten only for a new address, and only when there is a store file. The returned name is the address's name |
| HostNames.HostNameCache.ResolveIps | src/resolve-hostnames-by-ip.js:55-61 | the i-th result is the i-th address's name; the lookups are exactly those of the new addresses, in order; the store holds the final map when anything was looked up, and is untouched when nothing was |
| HostNames.Open | src/resolve-hostnames-by-ip.js:4-29 | with a store file, the cache starts from the stored map and fails exactly when the store is unreadable; without one, it starts empty |
| HostNames.ReopenedStore | src/resolve-hostnames-by-ip.js:10-26 | a store that one cache wrote reads back as that cache's map |
| Pipeline.RecordLocal | src/tshark-stream-compact.js:163-172 | the host map after the loop keeps each key listed once |
| Pipeline.RecordLocalCovers | src/tshark-stream-compact.js:163-172 | with a callable resolver, every local address of the batch is in the map afterwards and earlier names are kept |
| Pipeline.RecordLocalAsWired | src/tshark-stream-compact.js:9 | with the resolver as wired, the loop completes exactly when every local address is already stored, and then changes nothing |
| Pipeline.ResolveLocalHostNames | src/tshark-stream-compact.js:163-172 | the method's store and flag are those of the loop; on a throw the store is unchanged |
| Pipeline.NoRecoveryAfterThrow | src/tshark-stream-compact.js:163-172 | once the loop throws on a prefix of the entries, the whole loop throws |
| Pipeline.Report | src/tshark-stream-compact.js:175-188 | the method's files and flag are those of `report`: store, then CSV, then hour, day and month rollups, stopping at the first throw |
| Pipeline.ReportEmptyBatch | src/tshark-stream-compact.js:176-178 | an empty batch writes nothing and completes |
| Pipeline.ReportTouchesFirstPacketFrames | src/tshark-stream-compact.js:180-187 | a complete report changes only the first packet's month CSV file and its hour, day and month rollups |
| Pipeline.ReportRollups | src/tshark-stream-compact.js:182-187 | a complete report's rollups are the ones the three `reportTimeFrame` calls write |
| Pipeline.ReportFrameDocument | src/tshark-stream-compact.js:180-187 | with distinct frame files, each frame's document becomes its earlier document merged with the batch's aggregates |
| Pipeline.ReportFrameTotals | src/tshark-stream-compact.js:180-187 | with distinct frame files, each address in each frame file gains exactly the bytes of its packets, per direction |
| Pipeline.AsWiredReportWritesNothing | src/tshark-stream-compact.js:9 | as wired, a batch with a local address missing from the store throws before any file is written |
| Pipeline.CorrectedReportRecordsAllLocalNames | src/tshark-stream-compact.js:163-172 | with a callable resolver, the written store lists every local address of the batch and keeps every earlier name |
| Pipeline.ReplayConserves | src/tshark-stream-compact.js:223-237 | the batches handed to `report`, followed by the buffer, are exactly the accepted packets in order |
| Pipeline.CloseReportsEverything | src/tshark-stream-compact.js:223-227 | after the end of input every accepted packet has been reported and the buffer is empty |
| Pipeline.FirstPacketSeeds | src/tshark-stream-compact.js:211-215 | the first packet sets the timestamp to its minute and is buffered, and nothing is reported |
| Pipeline.ReplayWindows | src/tshark-stream-compact.js:211-237 | while packets arrive, every reported batch and the buffer are windows. Each window after the first starts with a packet more than the interval past the previous window's minute |
| Pipeline.WindowReachesIntoNextMinute | src/tshark-stream-compact.js:216 | with the default 60 s, a packet exactly 60 s after the window's minute, in the next hour, joins the window |
| Pipeline.ReplayFixedWindows | src/tshark-stream-compact.js:208-221 | with `>=` in place of `>`, every reported batch and the buffer stay strictly within the interval of their first packet's minute |
| Pipeline.FixedWindowStaysInMinute | src/tshark-stream-compact.js:208 | with `>=` and the default 60 s, no packet of a window lies in a later minute than its first, so no window spills into the next hour, day or month |
| Pipeline.FixedSplitsAtNextMinute | src/tshark-stream-compact.js:216 | with `>=` and the default 60 s, a packet exactly 60 s past the window's minute starts the next report |
| Pipeline.LineConsumer.constructor | src/tshark-stream-compact.js:204-206 | no timestamp, an empty buffer, nothing reported |
| Pipeline.LineConsumer.IsReportIntervalReached | src/tshark-stream-compact.js:211-221 | the answer is false for the first call and otherwise whether the packet lies more than the interval past the timestamp; the timestamp becomes the packet's minute on the first call and whenever the answer is true |
| Pipeline.LineConsumer.PerformReport | src/tshark-stream-compact.js:229-237 | when the interval is reached, the buffer is reported and restarts with the packet; otherwise the packet is appended |
| Pipeline.LineConsumer.FlushReport | src/tshark-stream-compact.js:223-227 | the buffer is reported and emptied |
| Pipeline.LineConsumer.ConsumeLine | src/tshark-stream-compact.js:239-279 | a filtered line changes nothing; a bad timestamp throws and changes nothing; an accepted packet is buffered, or, when it reaches the interval, the old buffer is reported (the files are `report`'s result) and the packet starts the new one |
| ConsoleCompact.ConsoleRowShape | tshark-stream-compact.js:62-72 | a printed line is the later CSV line with a tab appended, and is never the header |
| ConsoleCompact.ConsoleAfterKeepsHeader | tshark-stream-compact.js:52-74 | printing keeps the header once and on top, and prints one line per aggregate after the earlier output |
| ConsoleCompact.ParseLineAgrees | tshark-stream-compact.js:175-203 | on records with one address per side, the handler accepts exactly when the remote port is non-empty, with the same packet the later version builds |
| ConsoleCompact.BadTimestampFirst | tshark-stream-compact.js:188 | a line whose timestamp does not parse throws, whatever its other fields |
| ConsoleCompact.TunnelledIsLocal | tshark-stream-compact.js:162-168 | an address list whose outer address is in 10.0.0.0/8 passes `isLocalIp`, whatever the inner address |
| ConsoleCompact.TunnelAddresses | tshark-stream-compact.js:189 | the field "10.0.0.1,8.8.8.8" passes `isLocalIp` though 8.8.8.8 is not local |
| ConsoleCompact.TunnelCountedAsUpload | tshark-stream-compact.js:189-203 | a tunnelled packet from a non-local inner source behind a private outer address is counted as an upload of that non-local address |
| ConsoleCompact.TunnelCountedAsDownload | src/tshark-stream-compact.js:257-266 | the later version counts the same packet as a download of the destination from the inner source |
| ConsoleCompact.FeedConserves | tshark-stream-compact.js:205-218 | the reported batches, followed by the buffer, are exactly the accepted packets |
| ConsoleCompact.FeedBatches | tshark-stream-compact.js:148-160 | each batch ends with the packet that lay more than 10 s past the timestamp. The other packets do not. The timestamp is the last batch's last packet, and the buffer lies within 10 s of it |
| ConsoleCompact.FirstPacketOnlySeeds | tshark-stream-compact.js:150-154 | the first packet sets the timestamp to its own instant, untruncated, and nothing is reported |
| ConsoleCompact.ConsoleConsumer.constructor | tshark-stream-compact.js:52 | nothing printed, an empty buffer, no timestamp |
| ConsoleCompact.ConsoleConsumer.PrintHeader | tshark-stream-compact.js:53-58 | the header is printed only when nothing was printed before |
| ConsoleCompact.ConsoleConsumer.ReportCompact | tshark-stream-compact.js:59-74 | the header if not yet printed, then one line per aggregate in the map's order |
| ConsoleCompact.ConsoleConsumer.ReportTimeFrame | tshark-stream-compact.js:92-132 | nothing for an empty map. Otherwise the frame is that of the first aggregate's instant, and its file becomes the merge. An unparsable file ends the process |
| ConsoleCompact.ConsoleConsumer.Report | tshark-stream-compact.js:139-145 | prints the compacted batch, then writes the hour, day and month rollups of its first aggregate |
| ConsoleCompact.ConsoleConsumer.IsReportIntervalReached | tshark-stream-compact.js:150-160 | false on the first call; afterwards whether the packet lies more than 10 s past the timestamp, which then becomes the packet's instant |
| ConsoleCompact.ConsoleConsumer.ConsumeLine | tshark-stream-compact.js:175-219 | a bad timestamp ends the process; a filtered line changes nothing; an accepted packet is pushed, and when the interval is reached the buffer is reported and emptied |
| LegacyCompact.HomeLanIsLocal | compact-tshark-stream.js:18-20 | every address starting "192.168.2." is local for the later `isLocalIp` too |
| LegacyCompact.LocalIsWiderThanHomeLan | compact-tshark-stream.js:18-20 | the later `isLocalIp` accepts addresses that this one rejects |
| LegacyCompact.ThirdLayerStartsKeptChain | compact-tshark-stream.js:22-24 | the unused `truncateProtocols` returns the first layer of the chain that `compact` keeps |
| LegacyCompact.FirstEightLayersKept | compact-json-stream.js:28-30 | `truncateProtocols` keeps the first eight layers, or all of them when there are fewer |
| LegacyCompact.ParseTsvLineReadsRecord | compact-tshark-stream.js:26-46 | a line printed from a record reads back its length, protocols and addresses; each port is the TCP port unless that is empty |
| LegacyCompact.UnparsableLengthIsNaN | compact-tshark-stream.js:39 | a length that does not parse is kept as NaN |
| LegacyCompact.PortsPreferTcp | compact-json-stream.js:12-20 | a TCP layer decides both ports whatever the UDP layer holds; with neither layer both are `undefined` |
| LegacyCompact.KeyTextMerges | compact-tshark-stream.js:56 | an `undefined` local address and the text "undefined" share one entry |
| LegacyCompact.LegacyIndex | compact-tshark-stream.js:57 | the lookup finds an entry under the property name, or -1 exactly when there is none |
| LegacyCompact.CompactRawCounters | compact-tshark-stream.js:48-76 | one entry per distinct property name, holding the first such packet's parts. Each counter is NaN once a length in it did not parse, and the integer sum otherwise |
| LegacyCompact.OneNaNPoisons | compact-tshark-stream.js:69-71 | a single unparsable length makes its entry's counter in that direction NaN |
| LegacyCompact.PacketBuffer.constructor | compact-json-stream.js:6 | the buffer starts empty |
| LegacyCompact.PacketBuffer.ConsumeTsvLine | compact-tshark-stream.js:26-46 | every line is buffered, parsed |
| LegacyCompact.PacketBuffer.ConsumeLayers | compact-json-stream.js:34-50 | a packet without an `ip` layer is dropped; any other is buffered |
| LegacyCompact.PacketBuffer.Compact | compact-json-stream.js:52-80 | the loop's entries are the compaction of the buffer, and the buffer is empty afterwards |
| LegacyCompact.MergeLegacyCounter | compact-tshark-stream.js:117-140 | each address holds its earlier counters (`{0, 0}` when absent) plus its entries' counters, in JavaScript arithmetic |
| LegacyCompact.MergeLegacyAddresses | compact-tshark-stream.js:117-140 | no address is removed, and only the entries' addresses are added |
| LegacyCompact.StoredKeepsNumbers | compact-tshark-stream.js:141 | writing keeps every address and number, and a NaN counter reads back as 0 |
| LegacyCompact.ReportTimeFrane | compact-tshark-stream.js:114-142 | `${timeFrame}.json` becomes its merged document as stored, empty when missing; an unreadable file throws and nothing changes |

## Left out

- File system:
  - Files are values. The data directory, `WWW_ROOT`, `fs.mkdir` and the byte encoding
    are not modelled.
  - Reads: every error other than a missing file is one "unreadable" case, which throws.
  - Writes (`fs.appendFile` and `fs.writeFile` in `src/tshark-stream-compact.js`, and the store
    write of `src/resolve-hostnames-by-ip.js`) always succeed. A file that can be read but not
    written, a full disk, or a failure part-way through the CSV appends is not modelled.
    `Pipeline.Report` therefore always appends the lines and writes the three rollups once the
    CSV file is accessible. `HostNames.HostNameCache.ResolveIp` always leaves the store equal to
    the map, while in the code a failed write leaves the store stale for good, because the address
    is already in the map and is never written again.
- JSON:
  - Documents are values. A file that parses to a shape other than
    `{local: {...}, remote: {...}}` (or a list of pairs, for the store) counts as unparsable.
  - Property names such as `__proto__` are not modelled.
- js-joda and clocks:
  - `Instant.parse`, the hour, day and month formatting and `toString` are parameters.
  - `ZonedDateTime.now`, `new Date()` and `setInterval` are left out. This covers
    `report` and the timer of compact-tshark-stream.js (lines 149-158) and the timer of
    compact-json-stream.js (lines 88-104).
- Printing in the early scripts: `printHeader` and `reportRaw` of compact-tshark-stream.js,
  and the printing loop of compact-json-stream.js.
- Concurrency:
  - In `src/tshark-stream-compact.js` the `'line'` handler awaits `consumeLine`, but readline
    calls the async handler for every line without waiting for the previous call to finish.
    So handlers, and the reports they start, run concurrently: a report's file I/O can
    interleave with later lines and with a later report.
  - The model handles each line, and each report, atomically.
  - Logging and swallowing errors in `capture` is the `ok` flag.
- Reverse DNS:
  - `resolver.reverse` is a function from address to answer.
  - `setServers` and `DNS_SERVER` are left out.
- `REPORT_INTERVAL` is an integer. A non-numeric environment value, which would never
  trigger a report, is not modelled.
- Numbers are unbounded integers: sums beyond 2^53 do not lose precision in the model.
- Text is a sequence of characters, with no encoding.
- `frame_number` and `frame_time_epoch` of compact-json-stream.js are read but never used,
  so they are not modelled. A missing `frame` layer would throw; the model assumes the
  layer is present.
- Aggregation.CompactCounters: `compact` in the model keys by the four fields, not by their
  ':'-joined text. The two agree on addresses and ports without ':' and without the text
  "undefined" (Aggregation.SourceKeyInjective) and differ otherwise
  (Aggregation.SourceKeyCollides). The early scripts' model keys by the text.
- LegacyCompact.ReportTimeFrane: `JSON.stringify` writes NaN as `null`, and a later `+`
  treats `null` as 0. The model stores 0 in its place, so a stored `null` and a stored 0
  are not told apart.
- `tshark-stream-add-timestamp.js` and the root `resolveHostNamesByIp.js` are not part of
  this model.

## Findings

| source | as written | input that shows it | evidently intended | confidence | as-written member | corrected member |
|---|---|---|---|---|---|---|
| src/tshark-stream-compact.js:9 | `require('./resolve-hostnames-by-ip')()` stores the promise of a cache, not a function, so `resolveHostNamesByIp(entry.localIp)` throws. `report` then stops before the CSV file and the rollups are written. The factory's promise itself is rejected (it is called without options) and nothing handles that rejection; on Node 15 and later that can end the process at startup, so the outcome described assumes the process survives it | any batch with a local address not yet in `ipToHostNameMap.json`, such as a first report with an empty store | each new local address is resolved and stored, and the report goes on to the CSV file and the rollups | high, not executed | Pipeline.AsWiredReportWritesNothing | Pipeline.CorrectedReportRecordsAllLocalNames |
| tshark-stream-compact.js:189-203 | `isLocalIp` runs on the whole address field before the tunnel's last address is taken | source field "10.0.0.1,8.8.8.8" with destination 192.168.1.5: counted as an upload of 8.8.8.8 to 192.168.1.5 (ConsoleCompact.TunnelAddresses) | the direction is decided on the last address, as in src/tshark-stream-compact.js:259-263: a download of 192.168.1.5 from 8.8.8.8 | medium, not executed | ConsoleCompact.TunnelCountedAsUpload | ConsoleCompact.TunnelCountedAsDownload |
| src/tshark-stream-compact.js:216 | `epochSecond() - lastReportTimestamp.epochSecond() > REPORT_INTERVAL` keeps a packet exactly `REPORT_INTERVAL` seconds past the window's minute, and `epochSecond` drops the fraction, so the whole next minute's first second joins the window | packets at 13:59:00 and 14:00:00 with the default 60 s: both go into one report, whose hour frame is 13:00 | as the comment at line 208 says, truncation prevents overlaps into the next hour, day or month: `>=`, so every window lies within [minute, minute + interval) | medium, not executed | Pipeline.WindowReachesIntoNextMinute | Pipeline.ReplayFixedWindows |
