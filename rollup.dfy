/** Per-time-frame rollups: `readJsonFromFile` and `reportTimeFrame` in
    src/tshark-stream-compact.js. A rollup document holds, for every local and
    every remote address seen in the time frame, its accumulated download and
    upload bytes; each report reads the document, adds the batch in, and writes
    it back. */
module Rollups {
  import opened Common
  import opened Classify
  import opened Aggregation

  /** `{download, upload}`. */
  datatype Counters = Counters(download: int, upload: int)

  /** `{local: {...}, remote: {...}}`, keyed by address. */
  datatype Rollup = Rollup(local: map<string, Counters>, remote: map<string, Counters>)

  /** The document a missing file stands for. */
  const EmptyRollup := Rollup(map[], map[])

  /** A rollup file as stored: a document, or text that does not parse as one. */
  datatype RollupFile = Parsed(doc: Rollup) | Unparsable

  /** The counters of an address, `{0, 0}` when it is absent. */
  function Get(m: map<string, Counters>, ip: string): (c: Counters)
    ensures ip !in m ==> c == Counters(0, 0)
  {
    if ip in m then m[ip] else Counters(0, 0)
  }

  function AddEntry(c: Counters, e: Aggregate): Counters
  {
    Counters(c.download + e.download, c.upload + e.upload)
  }

  /** One iteration of the loop in `reportTimeFrame`. */
  function MergeEntry(d: Rollup, e: Aggregate): Rollup
  {
    Rollup(d.local[e.key.localIp := AddEntry(Get(d.local, e.key.localIp), e)],
           d.remote[e.key.remoteIp := AddEntry(Get(d.remote, e.key.remoteIp), e)])
  }

  /** The document after all entries are added, in order. */
  function MergeAll(d: Rollup, es: seq<Aggregate>): Rollup
  {
    if |es| == 0 then d else MergeEntry(MergeAll(d, es[..|es| - 1]), es[|es| - 1])
  }

  function LocalIps(es: seq<Aggregate>): set<string>
  {
    set i | 0 <= i < |es| :: es[i].key.localIp
  }

  function RemoteIps(es: seq<Aggregate>): set<string>
  {
    set i | 0 <= i < |es| :: es[i].key.remoteIp
  }

  /** The counters a document should hold for a local address after the merge:
      what it held plus the entries' bytes for that address. */
  function ExpectedLocal(d: Rollup, es: seq<Aggregate>, ip: string): Counters
  {
    Counters(Get(d.local, ip).download + EntryTotal(es, Measure(OfLocal(ip), false)),
             Get(d.local, ip).upload + EntryTotal(es, Measure(OfLocal(ip), true)))
  }

  function ExpectedRemote(d: Rollup, es: seq<Aggregate>, ip: string): Counters
  {
    Counters(Get(d.remote, ip).download + EntryTotal(es, Measure(OfRemote(ip), false)),
             Get(d.remote, ip).upload + EntryTotal(es, Measure(OfRemote(ip), true)))
  }

  lemma {:induction false} LocalCounter(d: Rollup, es: seq<Aggregate>, ip: string)
    ensures Get(MergeAll(d, es).local, ip) == ExpectedLocal(d, es, ip)
    decreases |es|
  {
    if |es| > 0 {
      LocalCounter(d, es[..|es| - 1], ip);
    }
  }

  lemma {:induction false} RemoteCounter(d: Rollup, es: seq<Aggregate>, ip: string)
    ensures Get(MergeAll(d, es).remote, ip) == ExpectedRemote(d, es, ip)
    decreases |es|
  {
    if |es| > 0 {
      RemoteCounter(d, es[..|es| - 1], ip);
    }
  }

  lemma AddressesOfSnoc(es: seq<Aggregate>)
    requires |es| > 0
    ensures LocalIps(es) == LocalIps(es[..|es| - 1]) + {es[|es| - 1].key.localIp}
    ensures RemoteIps(es) == RemoteIps(es[..|es| - 1]) + {es[|es| - 1].key.remoteIp}
  {
    var prefix := es[..|es| - 1];
    forall i | 0 <= i < |prefix| ensures prefix[i] == es[i] { }
  }

  lemma {:induction false} MergeAllAddresses(d: Rollup, es: seq<Aggregate>)
    ensures MergeAll(d, es).local.Keys == d.local.Keys + LocalIps(es)
    ensures MergeAll(d, es).remote.Keys == d.remote.Keys + RemoteIps(es)
    decreases |es|
  {
    if |es| > 0 {
      MergeAllAddresses(d, es[..|es| - 1]);
      AddressesOfSnoc(es);
    }
  }

  /** The merge adds each entry into its local and its remote address, starting absent
      addresses at zero; other addresses keep their counters and no address is removed. */
  lemma MergeAllCounters(d: Rollup, es: seq<Aggregate>)
    ensures MergeAll(d, es).local.Keys == d.local.Keys + LocalIps(es)
    ensures MergeAll(d, es).remote.Keys == d.remote.Keys + RemoteIps(es)
    ensures forall ip :: Get(MergeAll(d, es).local, ip) == ExpectedLocal(d, es, ip)
    ensures forall ip :: Get(MergeAll(d, es).remote, ip) == ExpectedRemote(d, es, ip)
  {
    MergeAllAddresses(d, es);
    forall ip ensures Get(MergeAll(d, es).local, ip) == ExpectedLocal(d, es, ip) {
      LocalCounter(d, es, ip);
    }
    forall ip ensures Get(MergeAll(d, es).remote, ip) == ExpectedRemote(d, es, ip) {
      RemoteCounter(d, es, ip);
    }
  }

  /** Merging two batches one after the other is merging their concatenation. */
  lemma {:induction false} MergeAllConcat(d: Rollup, a: seq<Aggregate>, b: seq<Aggregate>)
    ensures MergeAll(MergeAll(d, a), b) == MergeAll(d, a + b)
    decreases |b|
  {
    if |b| == 0 {
      assert a + b == a;
    } else {
      assert (a + b)[..|a + b| - 1] == a + b[..|b| - 1];
      MergeAllConcat(d, a, b[..|b| - 1]);
    }
  }

  lemma RollupEquality(r: Rollup, s: Rollup)
    requires r.local.Keys == s.local.Keys && r.remote.Keys == s.remote.Keys
    requires forall ip :: Get(r.local, ip) == Get(s.local, ip)
    requires forall ip :: Get(r.remote, ip) == Get(s.remote, ip)
    ensures r == s
  {
    forall ip | ip in r.local ensures r.local[ip] == s.local[ip] {
      assert Get(r.local, ip) == Get(s.local, ip);
    }
    forall ip | ip in r.remote ensures r.remote[ip] == s.remote[ip] {
      assert Get(r.remote, ip) == Get(s.remote, ip);
    }
  }

  lemma AddressesIncluded(a: seq<Aggregate>, b: seq<Aggregate>)
    requires multiset(a) <= multiset(b)
    ensures LocalIps(a) <= LocalIps(b) && RemoteIps(a) <= RemoteIps(b)
  {
    forall ip | ip in LocalIps(a) ensures ip in LocalIps(b) {
      var i :| 0 <= i < |a| && a[i].key.localIp == ip;
      assert a[i] in multiset(b);
      var j :| 0 <= j < |b| && b[j] == a[i];
    }
    forall ip | ip in RemoteIps(a) ensures ip in RemoteIps(b) {
      var i :| 0 <= i < |a| && a[i].key.remoteIp == ip;
      assert a[i] in multiset(b);
      var j :| 0 <= j < |b| && b[j] == a[i];
    }
  }

  /** The resulting document does not depend on the order of the entries. */
  lemma MergeAllOrderIndependent(d: Rollup, a: seq<Aggregate>, b: seq<Aggregate>)
    requires multiset(a) == multiset(b)
    ensures MergeAll(d, a) == MergeAll(d, b)
  {
    MergeAllAddresses(d, a);
    MergeAllAddresses(d, b);
    AddressesIncluded(a, b);
    AddressesIncluded(b, a);
    forall ip ensures Get(MergeAll(d, a).local, ip) == Get(MergeAll(d, b).local, ip) {
      LocalCounter(d, a, ip);
      LocalCounter(d, b, ip);
      EntryTotalPermutation(a, b, Measure(OfLocal(ip), false));
      EntryTotalPermutation(a, b, Measure(OfLocal(ip), true));
    }
    forall ip ensures Get(MergeAll(d, a).remote, ip) == Get(MergeAll(d, b).remote, ip) {
      RemoteCounter(d, a, ip);
      RemoteCounter(d, b, ip);
      EntryTotalPermutation(a, b, Measure(OfRemote(ip), false));
      EntryTotalPermutation(a, b, Measure(OfRemote(ip), true));
    }
    RollupEquality(MergeAll(d, a), MergeAll(d, b));
  }

  /** Merging the same batch twice into a fresh document doubles every counter. */
  lemma MergeTwiceDoubles(es: seq<Aggregate>, ip: string)
    ensures Get(MergeAll(MergeAll(EmptyRollup, es), es).local, ip).download
         == 2 * Get(MergeAll(EmptyRollup, es).local, ip).download
    ensures Get(MergeAll(MergeAll(EmptyRollup, es), es).local, ip).upload
         == 2 * Get(MergeAll(EmptyRollup, es).local, ip).upload
    ensures Get(MergeAll(MergeAll(EmptyRollup, es), es).remote, ip).download
         == 2 * Get(MergeAll(EmptyRollup, es).remote, ip).download
    ensures Get(MergeAll(MergeAll(EmptyRollup, es), es).remote, ip).upload
         == 2 * Get(MergeAll(EmptyRollup, es).remote, ip).upload
  {
    MergeAllCounters(EmptyRollup, es);
    MergeAllCounters(MergeAll(EmptyRollup, es), es);
  }

  /** End to end: a batch of packets compacted and merged into a fresh document leaves,
      for every address, exactly the bytes of its packets in each direction. */
  lemma RollupOfPackets(ps: seq<Packet>, ip: string)
    ensures Get(MergeAll(EmptyRollup, Compact(ps)).local, ip)
         == Counters(PacketTotal(ps, Measure(OfLocal(ip), false)), PacketTotal(ps, Measure(OfLocal(ip), true)))
    ensures Get(MergeAll(EmptyRollup, Compact(ps)).remote, ip)
         == Counters(PacketTotal(ps, Measure(OfRemote(ip), false)), PacketTotal(ps, Measure(OfRemote(ip), true)))
  {
    MergeAllCounters(EmptyRollup, Compact(ps));
    CompactPreservesMeasure(ps, Measure(OfLocal(ip), false));
    CompactPreservesMeasure(ps, Measure(OfLocal(ip), true));
    CompactPreservesMeasure(ps, Measure(OfRemote(ip), false));
    CompactPreservesMeasure(ps, Measure(OfRemote(ip), true));
  }

  // ---------------------------------------------------------------------------
  // Reading and writing the document

  /** `${timeFrame}.json` (the data directory is left out). */
  function RollupFileName(timeFrame: string): string
  {
    timeFrame + ".json"
  }

  /** `readJsonFromFile`: a missing file reads as the empty document, an unparsable one fails. */
  function ReadRollup(files: map<string, RollupFile>, name: string): Option<Rollup>
  {
    if name !in files then Some(EmptyRollup)
    else match files[name]
      case Parsed(d) => Some(d)
      case Unparsable => None
  }

  /** The loop of `reportTimeFrame` over the entries, updating `data` in place. */
  method MergeIntoDocument(data: Rollup, entries: seq<Aggregate>) returns (result: Rollup)
    ensures result == MergeAll(data, entries)
    ensures result.local.Keys == data.local.Keys + LocalIps(entries)
    ensures result.remote.Keys == data.remote.Keys + RemoteIps(entries)
    ensures forall ip :: Get(result.local, ip) == ExpectedLocal(data, entries, ip)
    ensures forall ip :: Get(result.remote, ip) == ExpectedRemote(data, entries, ip)
  {
    var local, remote := data.local, data.remote;
    var i := 0;
    while i < |entries|
      invariant 0 <= i <= |entries|
      invariant Rollup(local, remote) == MergeAll(data, entries[..i])
    {
      var entry := entries[i];
      if entry.key.localIp !in local {
        local := local[entry.key.localIp := Counters(0, 0)];
      }
      local := local[entry.key.localIp := Counters(local[entry.key.localIp].download + entry.download,
                                                    local[entry.key.localIp].upload + entry.upload)];
      if entry.key.remoteIp !in remote {
        remote := remote[entry.key.remoteIp := Counters(0, 0)];
      }
      remote := remote[entry.key.remoteIp := Counters(remote[entry.key.remoteIp].download + entry.download,
                                                       remote[entry.key.remoteIp].upload + entry.upload)];
      assert entries[..i + 1][..i] == entries[..i];
      i := i + 1;
    }
    assert entries[..i] == entries;
    result := Rollup(local, remote);
    MergeAllCounters(data, entries);
  }

  /** `reportTimeFrame(map, timeFrame)`: read the time frame's document (empty when the
      file is missing), add the entries, write it back. An unparsable file makes the
      call fail and leaves the files as they were. */
  method ReportTimeFrame(files: map<string, RollupFile>, entries: seq<Aggregate>, timeFrame: string)
    returns (result: map<string, RollupFile>, ok: bool)
    ensures var name := RollupFileName(timeFrame);
      && (ok <==> ReadRollup(files, name).Some?)
      && (ok ==> result == files[name := Parsed(MergeAll(ReadRollup(files, name).value, entries))])
      && (!ok ==> result == files)
  {
    var name := RollupFileName(timeFrame);
    var data := ReadRollup(files, name);
    if data.None? {
      return files, false;
    }
    var merged := MergeIntoDocument(data.value, entries);
    result, ok := files[name := Parsed(merged)], true;
  }

  /** The rollup files after `reportTimeFrame`, or `None` when it fails. */
  function RollupsAfter(files: map<string, RollupFile>, es: seq<Aggregate>, timeFrame: string)
    : Option<map<string, RollupFile>>
  {
    var name := RollupFileName(timeFrame);
    match ReadRollup(files, name)
    case None => None
    case Some(d) => Some(files[name := Parsed(MergeAll(d, es))])
  }

  /** The rollup files after a sequence of `reportTimeFrame` calls, and whether all completed. */
  datatype Written = Written(files: map<string, RollupFile>, ok: bool)

  /** `reportTimeFrame` for each time frame in turn; the first that fails ends the sequence,
      keeping what the earlier ones wrote. */
  function WriteRollups(files: map<string, RollupFile>, es: seq<Aggregate>, frames: seq<string>): Written
    decreases |frames|
  {
    if |frames| == 0 then Written(files, true)
    else match RollupsAfter(files, es, frames[0])
      case None => Written(files, false)
      case Some(next) => WriteRollups(next, es, frames[1..])
  }

  /** `n` is none of the frames' rollup files. */
  predicate NotAFrameFile(n: string, frames: seq<string>)
  {
    forall k :: 0 <= k < |frames| ==> n != RollupFileName(frames[k])
  }

  /** Frames whose rollup files are all different. */
  predicate DistinctFiles(frames: seq<string>)
  {
    forall i, j :: 0 <= i < j < |frames| ==> RollupFileName(frames[i]) != RollupFileName(frames[j])
  }

  /** When the writes complete, every frame has its rollup file; no other file ever changes. */
  lemma {:induction false} WriteRollupsFrame(files: map<string, RollupFile>, es: seq<Aggregate>, frames: seq<string>)
    ensures WriteRollups(files, es, frames).ok ==>
      forall k :: 0 <= k < |frames| ==> RollupFileName(frames[k]) in WriteRollups(files, es, frames).files
    ensures forall n :: NotAFrameFile(n, frames) ==>
      && (n in WriteRollups(files, es, frames).files <==> n in files)
      && (n in files ==> WriteRollups(files, es, frames).files[n] == files[n])
    decreases |frames|
  {
    if |frames| > 0 {
      match RollupsAfter(files, es, frames[0])
      case None =>
      case Some(next) =>
        var rest := frames[1..];
        WriteRollupsFrame(next, es, rest);
        assert forall k :: 0 < k < |frames| ==> frames[k] == rest[k - 1];
        forall n | NotAFrameFile(n, frames) ensures NotAFrameFile(n, rest) {
          assert forall k :: 0 <= k < |rest| ==> rest[k] == frames[k + 1];
        }
    }
  }

  /** Completed writes completed their first one. */
  lemma WriteRollupsFirst(files: map<string, RollupFile>, es: seq<Aggregate>, frames: seq<string>)
    requires |frames| > 0 && WriteRollups(files, es, frames).ok
    ensures RollupsAfter(files, es, frames[0]).Some?
    ensures WriteRollups(files, es, frames) == WriteRollups(RollupsAfter(files, es, frames[0]).value, es, frames[1..])
  {
  }

  lemma DistinctFilesTail(frames: seq<string>)
    requires |frames| > 0 && DistinctFiles(frames)
    ensures DistinctFiles(frames[1..]) && NotAFrameFile(RollupFileName(frames[0]), frames[1..])
  {
    var rest := frames[1..];
    forall i, j | 0 <= i < j < |rest| ensures RollupFileName(rest[i]) != RollupFileName(rest[j]) {
      assert rest[i] == frames[i + 1] && rest[j] == frames[j + 1];
    }
    forall j | 0 <= j < |rest| ensures RollupFileName(frames[0]) != RollupFileName(rest[j]) {
      assert rest[j] == frames[j + 1];
    }
  }

  /** With a different file per frame, completed writes merge the entries into each frame's
      document as it was before. */
  lemma {:induction false} WriteRollupsMerge(files: map<string, RollupFile>, es: seq<Aggregate>, frames: seq<string>, k: nat)
    requires k < |frames| && DistinctFiles(frames) && WriteRollups(files, es, frames).ok
    ensures ReadRollup(files, RollupFileName(frames[k])).Some?
    ensures RollupFileName(frames[k]) in WriteRollups(files, es, frames).files
    ensures WriteRollups(files, es, frames).files[RollupFileName(frames[k])]
         == Parsed(MergeAll(ReadRollup(files, RollupFileName(frames[k])).value, es))
    decreases |frames|
  {
    WriteRollupsFirst(files, es, frames);
    DistinctFilesTail(frames);
    var next := RollupsAfter(files, es, frames[0]).value;
    var rest := frames[1..];
    var name := RollupFileName(frames[k]);
    if k > 0 {
      assert rest[k - 1] == frames[k];
      assert name != RollupFileName(frames[0]);
      assert ReadRollup(next, name) == ReadRollup(files, name);
      WriteRollupsMerge(next, es, rest, k - 1);
    } else {
      WriteRollupsFrame(next, es, rest);
    }
  }

  /** Three `reportTimeFrame` calls in a row (the hour, the day and the month of a report). */
  method ReportTimeFrames(files: map<string, RollupFile>, entries: seq<Aggregate>, frames: seq<string>)
    returns (written: Written)
    requires |frames| == 3
    ensures written == WriteRollups(files, entries, frames)
  {
    var current, ok := ReportTimeFrame(files, entries, frames[0]);
    if !ok {
      return Written(current, false);
    }
    assert WriteRollups(files, entries, frames) == WriteRollups(current, entries, frames[1..]);
    ghost var second := current;
    current, ok := ReportTimeFrame(current, entries, frames[1]);
    if !ok {
      return Written(current, false);
    }
    assert frames[1..][0] == frames[1] && frames[1..][1..] == [frames[2]];
    assert WriteRollups(second, entries, frames[1..]) == WriteRollups(current, entries, [frames[2]]);
    ghost var third := current;
    current, ok := ReportTimeFrame(current, entries, frames[2]);
    if !ok {
      return Written(current, false);
    }
    assert [frames[2]][1..] == [];
    assert WriteRollups(third, entries, [frames[2]]) == WriteRollups(current, entries, []);
    written := Written(current, true);
  }
}
