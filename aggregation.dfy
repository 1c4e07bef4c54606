/** Flow aggregation: `compact` in src/tshark-stream-compact.js (and its identical
    twin in the root tshark-stream-compact.js). Packets are folded into one
    aggregate per flow key, in the order the keys first appear (the order
    `Object.values` returns them), each packet's length credited to `upload` or
    `download` by its direction. */
module Aggregation {
  import opened Common
  import opened JsText
  import opened Classify

  /** `(localIp, remoteIp, remotePort, protocol)`. */
  datatype FlowKey = FlowKey(localIp: string, remoteIp: string, remotePort: Option<string>, protocol: string)

  function KeyOf(p: Packet): FlowKey
  {
    FlowKey(p.localIp, p.remoteIp, p.remotePort, p.protocol)
  }

  /** One value of the `map` built by `compact`; `instant` is that of the first packet with the key. */
  datatype Aggregate = Aggregate(key: FlowKey, instant: Instant, download: int, upload: int)

  /** The position of the aggregate for `k`, or -1: the lookup `map[key]`. */
  function IndexOfKey(es: seq<Aggregate>, k: FlowKey): (i: int)
    ensures -1 <= i < |es|
    ensures i >= 0 ==> es[i].key == k
    ensures i < 0 ==> forall j :: 0 <= j < |es| ==> es[j].key != k
  {
    if |es| == 0 then -1
    else if es[|es| - 1].key == k then |es| - 1
    else IndexOfKey(es[..|es| - 1], k)
  }

  /** `map[key].upload += frameLen` or `map[key].download += frameLen`. */
  function Credit(e: Aggregate, p: Packet): Aggregate
  {
    if p.isUpload then e.(upload := e.upload + p.frameLen) else e.(download := e.download + p.frameLen)
  }

  /** One iteration of the loop in `compact`. */
  function AddPacket(es: seq<Aggregate>, p: Packet): seq<Aggregate>
  {
    var i := IndexOfKey(es, KeyOf(p));
    if i < 0 then es + [Credit(Aggregate(KeyOf(p), p.instant, 0, 0), p)]
    else es[i := Credit(es[i], p)]
  }

  /** The aggregates `compact(packets)` builds, in insertion order. */
  function Compact(ps: seq<Packet>): seq<Aggregate>
  {
    if |ps| == 0 then [] else AddPacket(Compact(ps[..|ps| - 1]), ps[|ps| - 1])
  }

  // ---------------------------------------------------------------------------
  // Measures: sums over packets and over aggregates

  /** Which flows a sum covers: all, one flow, all flows of a local or of a remote address. */
  datatype Selector = AnyFlow | Flow(key: FlowKey) | OfLocal(ip: string) | OfRemote(ip: string)

  predicate Selects(s: Selector, k: FlowKey)
  {
    match s
    case AnyFlow => true
    case Flow(key) => k == key
    case OfLocal(ip) => k.localIp == ip
    case OfRemote(ip) => k.remoteIp == ip
  }

  /** A selection of flows and a direction (`upload` or `download`). */
  datatype Measure = Measure(sel: Selector, upload: bool)

  function PacketShare(m: Measure, p: Packet): int
  {
    if Selects(m.sel, KeyOf(p)) && p.isUpload == m.upload then p.frameLen else 0
  }

  function EntryShare(m: Measure, e: Aggregate): int
  {
    if Selects(m.sel, e.key) then (if m.upload then e.upload else e.download) else 0
  }

  /** The bytes the packets carry in the measured flows and direction. */
  function PacketTotal(ps: seq<Packet>, m: Measure): int
  {
    if |ps| == 0 then 0 else PacketTotal(ps[..|ps| - 1], m) + PacketShare(m, ps[|ps| - 1])
  }

  /** The bytes the aggregates count in the measured flows and direction. */
  function EntryTotal(es: seq<Aggregate>, m: Measure): int
  {
    if |es| == 0 then 0 else EntryTotal(es[..|es| - 1], m) + EntryShare(m, es[|es| - 1])
  }

  lemma {:induction false} PacketTotalConcat(a: seq<Packet>, b: seq<Packet>, m: Measure)
    ensures PacketTotal(a + b, m) == PacketTotal(a, m) + PacketTotal(b, m)
    decreases |b|
  {
    if |b| == 0 {
      assert a + b == a;
    } else {
      assert (a + b)[..|a + b| - 1] == a + b[..|b| - 1];
      PacketTotalConcat(a, b[..|b| - 1], m);
    }
  }

  /** Taking the packet at `j` out of a sequence removes one copy of it and its share. */
  lemma RemoveOne(b: seq<Packet>, j: nat, m: Measure)
    requires j < |b|
    ensures multiset(b[..j] + b[j + 1..]) == multiset(b) - multiset{b[j]}
    ensures PacketTotal(b, m) == PacketTotal(b[..j] + b[j + 1..], m) + PacketShare(m, b[j])
  {
    var x := b[j];
    assert b == b[..j] + [x] + b[j + 1..];
    assert multiset(b) == multiset(b[..j]) + multiset{x} + multiset(b[j + 1..]);
    PacketTotalConcat(b[..j] + [x], b[j + 1..], m);
    PacketTotalConcat(b[..j], [x], m);
    PacketTotalConcat(b[..j], b[j + 1..], m);
    assert PacketTotal([x], m) == PacketShare(m, x) by {
      assert [x][..0] == [];
    }
  }

  /** A packet total does not depend on the order of the packets. */
  lemma {:induction false} PacketTotalPermutation(a: seq<Packet>, b: seq<Packet>, m: Measure)
    requires multiset(a) == multiset(b)
    ensures PacketTotal(a, m) == PacketTotal(b, m)
    decreases |a|
  {
    if |a| > 0 {
      var x := a[|a| - 1];
      assert x in multiset(b);
      var j :| 0 <= j < |b| && b[j] == x;
      RemoveOne(a, |a| - 1, m);
      RemoveOne(b, j, m);
      assert a[..|a| - 1] + a[|a|..] == a[..|a| - 1];
      PacketTotalPermutation(a[..|a| - 1], b[..j] + b[j + 1..], m);
    }
  }

  lemma {:induction false} EntryTotalConcat(a: seq<Aggregate>, b: seq<Aggregate>, m: Measure)
    ensures EntryTotal(a + b, m) == EntryTotal(a, m) + EntryTotal(b, m)
    decreases |b|
  {
    if |b| == 0 {
      assert a + b == a;
    } else {
      assert (a + b)[..|a + b| - 1] == a + b[..|b| - 1];
      EntryTotalConcat(a, b[..|b| - 1], m);
    }
  }

  /** An aggregate total does not depend on the order of the aggregates. */
  lemma {:induction false} EntryTotalPermutation(a: seq<Aggregate>, b: seq<Aggregate>, m: Measure)
    requires multiset(a) == multiset(b)
    ensures EntryTotal(a, m) == EntryTotal(b, m)
    decreases |a|
  {
    if |a| > 0 {
      var x := a[|a| - 1];
      assert x in multiset(b);
      var j :| 0 <= j < |b| && b[j] == x;
      var rest := b[..j] + b[j + 1..];
      assert b == b[..j] + [x] + b[j + 1..];
      assert a == a[..|a| - 1] + [x];
      assert multiset(rest) == multiset(b[..j]) + multiset(b[j + 1..]);
      assert multiset(a[..|a| - 1]) == multiset(a) - multiset{x};
      assert multiset(rest) == multiset(b) - multiset{x};
      EntryTotalPermutation(a[..|a| - 1], rest, m);
      EntryTotalConcat(b[..j] + [x], b[j + 1..], m);
      EntryTotalConcat(b[..j], [x], m);
      EntryTotalConcat(b[..j], b[j + 1..], m);
      assert EntryTotal([x], m) == EntryShare(m, x) by {
        assert [x][..0] == [];
      }
    }
  }

  lemma EntryTotalAppend(es: seq<Aggregate>, e: Aggregate, m: Measure)
    ensures EntryTotal(es + [e], m) == EntryTotal(es, m) + EntryShare(m, e)
  {
    assert (es + [e])[..|es|] == es;
  }

  lemma {:induction false} EntryTotalUpdate(es: seq<Aggregate>, i: nat, e: Aggregate, m: Measure)
    requires i < |es|
    ensures EntryTotal(es[i := e], m) == EntryTotal(es, m) - EntryShare(m, es[i]) + EntryShare(m, e)
    decreases |es|
  {
    var n := |es|;
    if i < n - 1 {
      assert es[i := e][..n - 1] == es[..n - 1][i := e];
      EntryTotalUpdate(es[..n - 1], i, e, m);
    } else {
      assert es[i := e][..n - 1] == es[..n - 1];
    }
  }

  lemma CreditShare(m: Measure, e: Aggregate, p: Packet)
    requires e.key == KeyOf(p)
    ensures EntryShare(m, Credit(e, p)) == EntryShare(m, e) + PacketShare(m, p)
  {
  }

  /** Every measured total of the packets is the same total of the aggregates:
      each packet's length lands in exactly one counter of exactly one aggregate. */
  lemma {:induction false} CompactPreservesMeasure(ps: seq<Packet>, m: Measure)
    ensures EntryTotal(Compact(ps), m) == PacketTotal(ps, m)
    decreases |ps|
  {
    if |ps| > 0 {
      var prefix, p := ps[..|ps| - 1], ps[|ps| - 1];
      CompactPreservesMeasure(prefix, m);
      var es := Compact(prefix);
      var i := IndexOfKey(es, KeyOf(p));
      if i < 0 {
        var created := Aggregate(KeyOf(p), p.instant, 0, 0);
        EntryTotalAppend(es, Credit(created, p), m);
        CreditShare(m, created, p);
      } else {
        EntryTotalUpdate(es, i, Credit(es[i], p), m);
        CreditShare(m, es[i], p);
      }
    }
  }

  /** All bytes of the input are counted, split by direction. */
  lemma CompactKeepsTotals(ps: seq<Packet>)
    ensures EntryTotal(Compact(ps), Measure(AnyFlow, true)) == PacketTotal(ps, Measure(AnyFlow, true))
    ensures EntryTotal(Compact(ps), Measure(AnyFlow, false)) == PacketTotal(ps, Measure(AnyFlow, false))
  {
    CompactPreservesMeasure(ps, Measure(AnyFlow, true));
    CompactPreservesMeasure(ps, Measure(AnyFlow, false));
  }

  // ---------------------------------------------------------------------------
  // One aggregate per distinct key

  predicate DistinctKeys(es: seq<Aggregate>)
  {
    forall i, j :: 0 <= i < j < |es| ==> es[i].key != es[j].key
  }

  function Keys(es: seq<Aggregate>): set<FlowKey>
  {
    set i | 0 <= i < |es| :: es[i].key
  }

  function PacketKeys(ps: seq<Packet>): set<FlowKey>
  {
    set j | 0 <= j < |ps| :: KeyOf(ps[j])
  }

  lemma PacketKeysSnoc(ps: seq<Packet>)
    requires |ps| > 0
    ensures PacketKeys(ps) == PacketKeys(ps[..|ps| - 1]) + {KeyOf(ps[|ps| - 1])}
  {
    var prefix := ps[..|ps| - 1];
    forall k | k in PacketKeys(ps) ensures k in PacketKeys(prefix) + {KeyOf(ps[|ps| - 1])} {
      var j :| 0 <= j < |ps| && KeyOf(ps[j]) == k;
      if j < |ps| - 1 { assert prefix[j] == ps[j]; }
    }
    forall k | k in PacketKeys(prefix) ensures k in PacketKeys(ps) {
      var j :| 0 <= j < |prefix| && KeyOf(prefix[j]) == k;
      assert ps[j] == prefix[j];
    }
  }

  /** A new aggregate for a new key keeps the keys distinct and adds its key. */
  lemma AppendAggregateShape(es: seq<Aggregate>, e: Aggregate)
    requires DistinctKeys(es) && forall j :: 0 <= j < |es| ==> es[j].key != e.key
    ensures DistinctKeys(es + [e])
    ensures Keys(es + [e]) == Keys(es) + {e.key}
  {
    var r := es + [e];
    forall k | k in Keys(r) ensures k in Keys(es) + {e.key} {
      var j :| 0 <= j < |r| && r[j].key == k;
      if j < |es| { assert r[j] == es[j]; }
    }
    forall k | k in Keys(es) ensures k in Keys(r) {
      var j :| 0 <= j < |es| && es[j].key == k;
      assert r[j] == es[j];
    }
    assert r[|es|] == e;
  }

  /** Crediting an aggregate keeps the keys. */
  lemma UpdateAggregateShape(es: seq<Aggregate>, i: nat, e: Aggregate)
    requires DistinctKeys(es) && i < |es| && e.key == es[i].key
    ensures DistinctKeys(es[i := e])
    ensures Keys(es[i := e]) == Keys(es)
  {
    var r := es[i := e];
    forall k | k in Keys(r) ensures k in Keys(es) {
      var j :| 0 <= j < |r| && r[j].key == k;
      assert r[j].key == es[j].key;
    }
    forall k | k in Keys(es) ensures k in Keys(r) {
      var j :| 0 <= j < |es| && es[j].key == k;
      assert r[j].key == es[j].key;
    }
  }

  lemma {:induction false} CompactShape(ps: seq<Packet>)
    ensures DistinctKeys(Compact(ps))
    ensures Keys(Compact(ps)) == PacketKeys(ps)
    decreases |ps|
  {
    if |ps| > 0 {
      var prefix, p := ps[..|ps| - 1], ps[|ps| - 1];
      CompactShape(prefix);
      PacketKeysSnoc(ps);
      var es := Compact(prefix);
      var i := IndexOfKey(es, KeyOf(p));
      if i < 0 {
        AppendAggregateShape(es, Credit(Aggregate(KeyOf(p), p.instant, 0, 0), p));
      } else {
        UpdateAggregateShape(es, i, Credit(es[i], p));
      }
    }
  }

  /** With distinct keys, the sum over one flow is that flow's own counter. */
  lemma {:induction false} FlowTotalIsCounter(es: seq<Aggregate>, i: nat, upload: bool)
    requires i < |es| && DistinctKeys(es)
    ensures EntryTotal(es, Measure(Flow(es[i].key), upload)) == if upload then es[i].upload else es[i].download
    decreases |es|
  {
    var n := |es|;
    var m := Measure(Flow(es[i].key), upload);
    if i < n - 1 {
      FlowTotalIsCounter(es[..n - 1], i, upload);
      assert EntryShare(m, es[n - 1]) == 0;
    } else {
      AbsentFlowTotal(es[..n - 1], es[i].key, upload);
    }
  }

  lemma {:induction false} AbsentFlowTotal(es: seq<Aggregate>, k: FlowKey, upload: bool)
    requires forall j :: 0 <= j < |es| ==> es[j].key != k
    ensures EntryTotal(es, Measure(Flow(k), upload)) == 0
    decreases |es|
  {
    if |es| > 0 {
      AbsentFlowTotal(es[..|es| - 1], k, upload);
    }
  }

  /** `compact` yields exactly one aggregate per distinct flow key of its input, and
      each counter is the sum of the lengths of that flow's packets in that direction. */
  lemma CompactCounters(ps: seq<Packet>)
    ensures DistinctKeys(Compact(ps)) && Keys(Compact(ps)) == PacketKeys(ps)
    ensures forall i :: 0 <= i < |Compact(ps)| ==>
      && Compact(ps)[i].upload == PacketTotal(ps, Measure(Flow(Compact(ps)[i].key), true))
      && Compact(ps)[i].download == PacketTotal(ps, Measure(Flow(Compact(ps)[i].key), false))
  {
    CompactShape(ps);
    var es := Compact(ps);
    forall i | 0 <= i < |es|
      ensures es[i].upload == PacketTotal(ps, Measure(Flow(es[i].key), true))
      ensures es[i].download == PacketTotal(ps, Measure(Flow(es[i].key), false))
    {
      FlowTotalIsCounter(es, i, true);
      FlowTotalIsCounter(es, i, false);
      CompactPreservesMeasure(ps, Measure(Flow(es[i].key), true));
      CompactPreservesMeasure(ps, Measure(Flow(es[i].key), false));
    }
  }

  /** Reordering the input changes no counter and no key (only `instant`, see below). */
  lemma CompactCountersOrderIndependent(ps: seq<Packet>, qs: seq<Packet>, i: nat, j: nat)
    requires multiset(ps) == multiset(qs)
    requires i < |Compact(ps)| && j < |Compact(qs)| && Compact(ps)[i].key == Compact(qs)[j].key
    ensures Compact(ps)[i].upload == Compact(qs)[j].upload
    ensures Compact(ps)[i].download == Compact(qs)[j].download
  {
    CompactCounters(ps);
    CompactCounters(qs);
    var k := Compact(ps)[i].key;
    PacketTotalPermutation(ps, qs, Measure(Flow(k), true));
    PacketTotalPermutation(ps, qs, Measure(Flow(k), false));
  }

  lemma CompactKeysOrderIndependent(ps: seq<Packet>, qs: seq<Packet>)
    requires multiset(ps) == multiset(qs)
    ensures Keys(Compact(ps)) == Keys(Compact(qs))
  {
    CompactShape(ps);
    CompactShape(qs);
    forall k | k in PacketKeys(ps) ensures k in PacketKeys(qs) {
      var j :| 0 <= j < |ps| && KeyOf(ps[j]) == k;
      assert ps[j] in multiset(qs);
    }
    forall k | k in PacketKeys(qs) ensures k in PacketKeys(ps) {
      var j :| 0 <= j < |qs| && KeyOf(qs[j]) == k;
      assert qs[j] in multiset(ps);
    }
  }

  // ---------------------------------------------------------------------------
  // The representative instant

  /** The index of the first packet of flow `k`. */
  function FirstIndex(ps: seq<Packet>, k: FlowKey): (j: nat)
    requires k in PacketKeys(ps)
    ensures j < |ps| && KeyOf(ps[j]) == k
    ensures forall i :: 0 <= i < j ==> KeyOf(ps[i]) != k
  {
    if KeyOf(ps[0]) == k then 0
    else
      assert k in PacketKeys(ps[1..]) by {
        var j :| 0 <= j < |ps| && KeyOf(ps[j]) == k;
        assert ps[1..][j - 1] == ps[j];
      }
      1 + FirstIndex(ps[1..], k)
  }

  /** Any packet of flow `k` with no earlier packet of that flow is the first one. */
  lemma FirstIndexIs(ps: seq<Packet>, k: FlowKey, j: nat)
    requires j < |ps| && KeyOf(ps[j]) == k
    requires forall t :: 0 <= t < j ==> KeyOf(ps[t]) != k
    ensures k in PacketKeys(ps) && FirstIndex(ps, k) == j
  {
    assert k in PacketKeys(ps);
    var f := FirstIndex(ps, k);
    assert KeyOf(ps[f]) == k;
  }

  /** Appending a packet does not move the first packet of a flow already present. */
  lemma FirstIndexSnoc(prefix: seq<Packet>, p: Packet, k: FlowKey)
    requires k in PacketKeys(prefix)
    ensures k in PacketKeys(prefix + [p]) && FirstIndex(prefix + [p], k) == FirstIndex(prefix, k)
  {
    var ps := prefix + [p];
    var f := FirstIndex(prefix, k);
    assert ps[f] == prefix[f];
    forall t | 0 <= t < f ensures KeyOf(ps[t]) != k {
      assert ps[t] == prefix[t];
    }
    FirstIndexIs(ps, k, f);
  }

  /** The aggregates have the instants of their flows' first packets. */
  ghost predicate FirstInstants(es: seq<Aggregate>, ps: seq<Packet>)
  {
    forall i :: 0 <= i < |es| ==> es[i].key in PacketKeys(ps) && es[i].instant == ps[FirstIndex(ps, es[i].key)].instant
  }

  lemma AddPacketInstants(es: seq<Aggregate>, prefix: seq<Packet>, p: Packet)
    requires DistinctKeys(es) && Keys(es) == PacketKeys(prefix) && FirstInstants(es, prefix)
    ensures FirstInstants(AddPacket(es, p), prefix + [p])
  {
    var ps := prefix + [p];
    var r := AddPacket(es, p);
    forall i | 0 <= i < |r|
      ensures r[i].key in PacketKeys(ps) && r[i].instant == ps[FirstIndex(ps, r[i].key)].instant
    {
      if i < |es| {
        assert r[i].key == es[i].key && r[i].instant == es[i].instant;
        FirstIndexSnoc(prefix, p, es[i].key);
        var f := FirstIndex(prefix, es[i].key);
        assert ps[f] == prefix[f];
      } else {
        assert r[i].key == KeyOf(p) && r[i].instant == p.instant;
        assert KeyOf(p) !in Keys(es);
        forall t | 0 <= t < |prefix| ensures KeyOf(ps[t]) != KeyOf(p) {
          assert ps[t] == prefix[t];
          assert KeyOf(prefix[t]) in PacketKeys(prefix);
        }
        FirstIndexIs(ps, KeyOf(p), |prefix|);
      }
    }
  }

  /** Each aggregate's instant is that of the first packet carrying its key. */
  lemma {:induction false} CompactInstants(ps: seq<Packet>)
    ensures forall i :: 0 <= i < |Compact(ps)| ==>
      Compact(ps)[i].key in PacketKeys(ps) && Compact(ps)[i].instant == ps[FirstIndex(ps, Compact(ps)[i].key)].instant
    decreases |ps|
  {
    if |ps| > 0 {
      var prefix, p := ps[..|ps| - 1], ps[|ps| - 1];
      CompactInstants(prefix);
      CompactShape(prefix);
      assert prefix + [p] == ps;
      AddPacketInstants(Compact(prefix), prefix, p);
    }
    assert FirstInstants(Compact(ps), ps);
  }

  /** The first aggregate is the first packet's flow, with that packet's instant:
      this is why the root variant's "first key" and src's "first packet" pick the same time frame. */
  lemma {:induction false} CompactFirstEntry(ps: seq<Packet>)
    requires |ps| > 0
    ensures |Compact(ps)| > 0
    ensures Compact(ps)[0].key == KeyOf(ps[0]) && Compact(ps)[0].instant == ps[0].instant
    decreases |ps|
  {
    if |ps| > 1 {
      var prefix := ps[..|ps| - 1];
      CompactFirstEntry(prefix);
      assert prefix[0] == ps[0];
    }
  }

  /** The representative instant is not order independent: the same two packets in the
      other order give the aggregate the other packet's instant. */
  lemma InstantDependsOnOrder(p: Packet, q: Packet)
    requires KeyOf(p) == KeyOf(q) && p.instant != q.instant
    ensures multiset([p, q]) == multiset([q, p])
    ensures Compact([p, q])[0].instant != Compact([q, p])[0].instant
  {
    CompactFirstEntry([p, q]);
    CompactFirstEntry([q, p]);
  }

  // ---------------------------------------------------------------------------
  // The loop

  lemma CompactSnoc(ps: seq<Packet>, n: nat)
    requires n < |ps|
    ensures Compact(ps[..n + 1]) == AddPacket(Compact(ps[..n]), ps[n])
  {
    assert ps[..n + 1][..n] == ps[..n];
  }

  /** `compact(packets)`: the loop over the packets, creating an aggregate with zero
      counters the first time a key is seen and adding the length to one counter. */
  method CompactPackets(packets: seq<Packet>) returns (entries: seq<Aggregate>)
    ensures entries == Compact(packets)
    ensures DistinctKeys(entries) && Keys(entries) == PacketKeys(packets)
    ensures forall i :: 0 <= i < |entries| ==>
      && entries[i].upload == PacketTotal(packets, Measure(Flow(entries[i].key), true))
      && entries[i].download == PacketTotal(packets, Measure(Flow(entries[i].key), false))
  {
    entries := [];
    var n := 0;
    while n < |packets|
      invariant 0 <= n <= |packets|
      invariant entries == Compact(packets[..n])
    {
      var packet := packets[n];
      ghost var before := entries;
      var key := KeyOf(packet);
      var i := IndexOfKey(entries, key);
      if i < 0 {
        entries := entries + [Aggregate(key, packet.instant, 0, 0)];
        i := |entries| - 1;
      }
      if packet.isUpload {
        entries := entries[i := entries[i].(upload := entries[i].upload + packet.frameLen)];
      } else {
        entries := entries[i := entries[i].(download := entries[i].download + packet.frameLen)];
      }
      assert entries == AddPacket(before, packet);
      CompactSnoc(packets, n);
      n := n + 1;
    }
    assert packets[..n] == packets;
    CompactCounters(packets);
  }

  // ---------------------------------------------------------------------------
  // The source's textual key

  /** `${value}` of an optional text, such as `${remotePort}`: `undefined` prints as the text "undefined". */
  function TemplateText(value: Option<string>): string
  {
    match value
    case None => "undefined"
    case Some(s) => s
  }

  /** The key `compact` actually indexes by: the four fields joined by ':'. */
  function SourceKey(k: FlowKey): string
  {
    k.localIp + ":" + k.remoteIp + ":" + TemplateText(k.remotePort) + ":" + k.protocol
  }

  lemma ColonSplitUnique(a: string, b: string, c: string, d: string)
    requires Free(a, ':') && Free(c, ':')
    requires a + ":" + b == c + ":" + d
    ensures a == c && b == d
  {
    SplitAtFirst(a, ':', b);
    SplitAtFirst(c, ':', d);
    assert a + ":" + b == a + [':'] + b && c + ":" + d == c + [':'] + d;
    var parts := Split(a + [':'] + b, ':');
    assert parts == [a] + Split(b, ':') == [c] + Split(d, ':');
    assert a == parts[0] == c;
    assert Split(b, ':') == parts[1..] == Split(d, ':');
    JoinSplit(b, ':');
    JoinSplit(d, ':');
  }

  /** The textual key regrouped from the right: each field, then ':' and the rest. */
  lemma SourceKeyNested(k: FlowKey)
    ensures SourceKey(k) == k.localIp + ":" + (k.remoteIp + ":" + (TemplateText(k.remotePort) + ":" + k.protocol))
  {
    var port := TemplateText(k.remotePort);
    calc {
      SourceKey(k);
      k.localIp + ":" + k.remoteIp + ":" + port + ":" + k.protocol;
      k.localIp + ":" + (k.remoteIp + ":" + port + ":" + k.protocol);
      { assert k.remoteIp + ":" + port + ":" + k.protocol == k.remoteIp + ":" + (port + ":" + k.protocol); }
      k.localIp + ":" + (k.remoteIp + ":" + (port + ":" + k.protocol));
    }
  }

  /** Apart from the literal text "undefined", `${port}` tells ports apart. */
  lemma TemplateTextInjective(a: Option<string>, b: Option<string>)
    requires a != Some("undefined") && b != Some("undefined")
    requires TemplateText(a) == TemplateText(b)
    ensures a == b
  {
  }

  /** For addresses and ports without ':' (all the capture tool prints) and a port that
      is not the literal text "undefined", the textual key identifies the flow exactly. */
  lemma SourceKeyInjective(k1: FlowKey, k2: FlowKey)
    requires Free(k1.localIp, ':') && Free(k1.remoteIp, ':') && Free(TemplateText(k1.remotePort), ':')
    requires Free(k2.localIp, ':') && Free(k2.remoteIp, ':') && Free(TemplateText(k2.remotePort), ':')
    requires k1.remotePort != Some("undefined") && k2.remotePort != Some("undefined")
    ensures SourceKey(k1) == SourceKey(k2) <==> k1 == k2
  {
    if SourceKey(k1) == SourceKey(k2) {
      var p1, p2 := TemplateText(k1.remotePort), TemplateText(k2.remotePort);
      var u1, u2 := p1 + ":" + k1.protocol, p2 + ":" + k2.protocol;
      var t1, t2 := k1.remoteIp + ":" + u1, k2.remoteIp + ":" + u2;
      SourceKeyNested(k1);
      SourceKeyNested(k2);
      ColonSplitUnique(k1.localIp, t1, k2.localIp, t2);
      ColonSplitUnique(k1.remoteIp, u1, k2.remoteIp, u2);
      ColonSplitUnique(p1, k1.protocol, p2, k2.protocol);
      TemplateTextInjective(k1.remotePort, k2.remotePort);
    }
  }

  /** Outside that domain two different flows share one textual key. */
  lemma SourceKeyCollides()
    ensures var k1 := FlowKey("10.0.0.1:80", "x", Some("1"), "");
            var k2 := FlowKey("10.0.0.1", "80:x", Some("1"), "");
            k1 != k2 && SourceKey(k1) == SourceKey(k2)
  {
    var k1 := FlowKey("10.0.0.1:80", "x", Some("1"), "");
    var k2 := FlowKey("10.0.0.1", "80:x", Some("1"), "");
    assert k1.localIp != k2.localIp;
  }
}
