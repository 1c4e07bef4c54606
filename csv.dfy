/** The monthly CSV file: `reportCompact` in src/tshark-stream-compact.js. The
    file gets its header line only when it is created; each report then appends
    one tab-separated line per aggregate, in ascending order of the aggregates'
    instants (a stable sort, so aggregates with equal instants keep their order). */
module CsvReport {
  import opened Common
  import opened JsText
  import opened Classify
  import opened Aggregation

  const Header := "time\tlocal_ip\tremote_ip\tremote_port\tprotocol\tdownload\tupload"

  /** A CSV file as a list of lines (each written with a trailing newline), or a
      file that exists but cannot be accessed. */
  datatype CsvFile = Lines(lines: seq<string>) | Inaccessible

  /** `fritz-capture-${timeFrame}.csv` (the data directory is left out). */
  function CsvFileName(timeFrame: string): string
  {
    "fritz-capture-" + timeFrame + ".csv"
  }

  // ---------------------------------------------------------------------------
  // Sorting by instant

  predicate SortedByInstant(es: seq<Aggregate>)
  {
    forall i, j :: 0 <= i < j < |es| ==> NotAfter(es[i].instant, es[j].instant)
  }

  /** Insert `x` after every element not after it, i.e. before the first one strictly after it. */
  function InsertByInstant(sorted: seq<Aggregate>, x: Aggregate): (r: seq<Aggregate>)
    ensures |r| == |sorted| + 1
  {
    if |sorted| == 0 then [x]
    else if NotAfter(sorted[|sorted| - 1].instant, x.instant) then sorted + [x]
    else InsertByInstant(sorted[..|sorted| - 1], x) + [sorted[|sorted| - 1]]
  }

  /** `entries.sort((a, b) => a.instant.compareTo(b.instant))`, a stable sort. */
  function SortByInstant(es: seq<Aggregate>): (r: seq<Aggregate>)
    ensures |r| == |es|
  {
    if |es| == 0 then [] else InsertByInstant(SortByInstant(es[..|es| - 1]), es[|es| - 1])
  }

  /** The aggregates with instant `t`, in order. */
  function WithInstant(es: seq<Aggregate>, t: Instant): seq<Aggregate>
  {
    if |es| == 0 then []
    else WithInstant(es[..|es| - 1], t) + (if es[|es| - 1].instant == t then [es[|es| - 1]] else [])
  }

  lemma WithInstantSnoc(es: seq<Aggregate>, x: Aggregate, t: Instant)
    ensures WithInstant(es + [x], t) == WithInstant(es, t) + (if x.instant == t then [x] else [])
  {
    assert (es + [x])[..|es|] == es;
  }

  lemma {:induction false} InsertPermutes(sorted: seq<Aggregate>, x: Aggregate)
    ensures multiset(InsertByInstant(sorted, x)) == multiset(sorted) + multiset{x}
    decreases |sorted|
  {
    if |sorted| > 0 && !NotAfter(sorted[|sorted| - 1].instant, x.instant) {
      var init, last := sorted[..|sorted| - 1], sorted[|sorted| - 1];
      assert sorted == init + [last];
      InsertPermutes(init, x);
    }
  }

  lemma {:induction false} InsertStable(sorted: seq<Aggregate>, x: Aggregate, t: Instant)
    ensures WithInstant(InsertByInstant(sorted, x), t) == WithInstant(sorted, t) + (if x.instant == t then [x] else [])
    decreases |sorted|
  {
    if |sorted| == 0 {
      assert [x][..0] == [];
    } else {
      var init, last := sorted[..|sorted| - 1], sorted[|sorted| - 1];
      assert sorted == init + [last];
      if NotAfter(last.instant, x.instant) {
        WithInstantSnoc(sorted, x, t);
      } else {
        InsertStable(init, x, t);
        WithInstantSnoc(InsertByInstant(init, x), last, t);
      }
    }
  }

  lemma {:induction false} InsertSorted(sorted: seq<Aggregate>, x: Aggregate)
    requires SortedByInstant(sorted)
    ensures SortedByInstant(InsertByInstant(sorted, x))
    decreases |sorted|
  {
    if |sorted| > 0 && !NotAfter(sorted[|sorted| - 1].instant, x.instant) {
      var init, last := sorted[..|sorted| - 1], sorted[|sorted| - 1];
      InsertSorted(init, x);
      InsertPermutes(init, x);
      var r := InsertByInstant(init, x);
      forall k | 0 <= k < |r| ensures NotAfter(r[k].instant, last.instant) {
        assert r[k] in multiset(init) + multiset{x};
        if r[k] != x {
          var j :| 0 <= j < |init| && init[j] == r[k];
          assert sorted[j] == init[j];
        }
      }
    }
  }

  /** `SortByInstant` returns the aggregates in ascending instant order, as a permutation
      of its input, and keeps the input order among aggregates with the same instant. */
  lemma {:induction false} SortByInstantCorrect(es: seq<Aggregate>)
    ensures SortedByInstant(SortByInstant(es))
    ensures multiset(SortByInstant(es)) == multiset(es)
    ensures forall t :: WithInstant(SortByInstant(es), t) == WithInstant(es, t)
    decreases |es|
  {
    if |es| > 0 {
      var init, last := es[..|es| - 1], es[|es| - 1];
      SortByInstantCorrect(init);
      InsertSorted(SortByInstant(init), last);
      InsertPermutes(SortByInstant(init), last);
      assert es == init + [last];
      forall t ensures WithInstant(SortByInstant(es), t) == WithInstant(es, t) {
        InsertStable(SortByInstant(init), last, t);
        WithInstantSnoc(init, last, t);
      }
    }
  }

  // ---------------------------------------------------------------------------
  // Lines

  /** The seven fields of an aggregate's line; `text` is `Instant.toString`. */
  function RowFields(e: Aggregate, text: Instant -> string): seq<string>
  {
    [text(e.instant), e.key.localIp, e.key.remoteIp, TemplateText(e.key.remotePort), e.key.protocol,
     IntText(e.download), IntText(e.upload)]
  }

  function Row(e: Aggregate, text: Instant -> string): string
  {
    Join(RowFields(e, text), '\t')
  }

  /** The lines for the aggregates, in order. */
  function Rows(es: seq<Aggregate>, text: Instant -> string): (r: seq<string>)
    ensures |r| == |es|
  {
    if |es| == 0 then [] else Rows(es[..|es| - 1], text) + [Row(es[|es| - 1], text)]
  }

  /** A line of a file that this code created: the header once, at the top. */
  predicate HeaderOnce(lines: seq<string>)
  {
    |lines| > 0 && lines[0] == Header && forall i :: 0 < i < |lines| ==> lines[i] != Header
  }

  lemma HeaderOnceSnoc(lines: seq<string>, row: string)
    requires HeaderOnce(lines) && row != Header
    ensures HeaderOnce(lines + [row])
  {
  }

  /** No aggregate's line is the header: a line ends with the digits of the upload counter. */
  lemma RowIsNotHeader(e: Aggregate, text: Instant -> string)
    ensures Row(e, text) != Header
  {
    var fs := RowFields(e, text);
    JoinSnoc(fs[..6], fs[6], '\t');
    assert fs[..6] + [fs[6]] == fs;
    var r := Row(e, text);
    assert r[|r| - 1] == IntText(e.upload)[|IntText(e.upload)| - 1];
    assert Header[|Header| - 1] == 'd';
  }

  /** With no tab inside the text fields, a line splits back into its seven fields, and the
      two counters parse back to their values. */
  lemma RowRoundTrip(e: Aggregate, text: Instant -> string)
    requires Free(text(e.instant), '\t') && Free(e.key.localIp, '\t') && Free(e.key.remoteIp, '\t')
    requires Free(TemplateText(e.key.remotePort), '\t') && Free(e.key.protocol, '\t')
    ensures |Split(Row(e, text), '\t')| == 7
    ensures Split(Row(e, text), '\t') == RowFields(e, text)
    ensures ParseInt(Split(Row(e, text), '\t')[5]) == Some(e.download)
    ensures ParseInt(Split(Row(e, text), '\t')[6]) == Some(e.upload)
  {
    IntTextFree(e.download, '\t');
    IntTextFree(e.upload, '\t');
    SplitJoin(RowFields(e, text), '\t');
    ParseIntText(e.download);
    ParseIntText(e.upload);
  }

  // ---------------------------------------------------------------------------
  // reportCompact

  /** The lines a report starts from: the file's lines, or the header for a new file. */
  function StartLines(files: map<string, CsvFile>, name: string): seq<string>
    requires name !in files || files[name].Lines?
  {
    if name !in files then [Header] else files[name].lines
  }

  /** Appending aggregate lines keeps a single header at the top. */
  lemma {:induction false} RowsKeepHeaderOnce(lines: seq<string>, es: seq<Aggregate>, text: Instant -> string)
    requires HeaderOnce(lines)
    ensures HeaderOnce(lines + Rows(es, text))
    decreases |es|
  {
    if |es| > 0 {
      var init, last := es[..|es| - 1], es[|es| - 1];
      RowsKeepHeaderOnce(lines, init, text);
      RowIsNotHeader(last, text);
      HeaderOnceSnoc(lines + Rows(init, text), Row(last, text));
      assert lines + Rows(es, text) == lines + Rows(init, text) + [Row(last, text)];
    }
  }

  /** The loop of `reportCompact`: one `appendFile` per aggregate, in the given order. */
  method AppendRows(lines: seq<string>, sorted: seq<Aggregate>, text: Instant -> string) returns (result: seq<string>)
    ensures result == lines + Rows(sorted, text)
    ensures |result| == |lines| + |sorted|
    ensures forall i :: 0 <= i < |sorted| ==> result[|lines| + i] == Row(sorted[i], text)
  {
    result := lines;
    var i := 0;
    while i < |sorted|
      invariant 0 <= i <= |sorted|
      invariant result == lines + Rows(sorted[..i], text)
    {
      assert sorted[..i + 1][..i] == sorted[..i];
      result := result + [Row(sorted[i], text)];
      i := i + 1;
    }
    assert sorted[..i] == sorted;
    RowsAt(sorted, text);
  }

  lemma {:induction false} RowsAt(es: seq<Aggregate>, text: Instant -> string)
    ensures forall i :: 0 <= i < |es| ==> Rows(es, text)[i] == Row(es[i], text)
    decreases |es|
  {
    if |es| > 0 {
      RowsAt(es[..|es| - 1], text);
    }
  }

  /** `reportCompact(map, timeFrame)`: create the file with its header when it is missing
      (fail when it exists but cannot be accessed), sort the aggregates by instant, append
      one line per aggregate. A file that had its header once at the top still has. */
  method ReportCompact(files: map<string, CsvFile>, entries: seq<Aggregate>, timeFrame: string, text: Instant -> string)
    returns (result: map<string, CsvFile>, ok: bool)
    ensures var name := CsvFileName(timeFrame);
      && (ok <==> name !in files || files[name].Lines?)
      && (!ok ==> result == files)
      && (ok ==> result == files[name := Lines(StartLines(files, name) + Rows(SortByInstant(entries), text))])
      && (ok && (name !in files || HeaderOnce(files[name].lines)) ==> HeaderOnce(result[name].lines))
  {
    var name := CsvFileName(timeFrame);
    var lines: seq<string>;
    if name !in files {
      lines := [Header];
    } else if files[name].Inaccessible? {
      return files, false;
    } else {
      lines := files[name].lines;
    }
    var appended := AppendRows(lines, SortByInstant(entries), text);
    if HeaderOnce(lines) {
      RowsKeepHeaderOnce(lines, SortByInstant(entries), text);
    }
    result, ok := files[name := Lines(appended)], true;
  }
}
