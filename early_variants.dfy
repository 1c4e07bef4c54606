/** The two earliest capture scripts at the repository root: compact-tshark-stream.js,
    which reads tab-separated capture lines, and compact-json-stream.js, which reads the
    capture tool's JSON layers. Both buffer every packet they read, with the raw fields
    of the record, and classify it only when `compact` runs: a packet is an upload when
    its source address starts with "192.168.2.", and lengths are JavaScript numbers, so a
    length that does not parse (NaN) poisons every sum it enters. */
module LegacyCompact {
  import opened Common
  import opened JsText
  import opened Classify
  import opened Aggregation

  // ---------------------------------------------------------------------------
  // JavaScript numbers

  /** A JavaScript number as these scripts produce it: an integer, or NaN. */
  datatype JsNum = Num(n: int) | NaN

  /** `a + b`: NaN absorbs. */
  function Plus(a: JsNum, b: JsNum): JsNum
  {
    if a.NaN? || b.NaN? then NaN else Num(a.n + b.n)
  }

  lemma PlusZero(a: JsNum)
    ensures Plus(a, Num(0)) == a && Plus(Num(0), a) == a
  {
  }

  lemma PlusAssociates(a: JsNum, b: JsNum, c: JsNum)
    ensures Plus(Plus(a, b), c) == Plus(a, Plus(b, c))
  {
  }

  /** `parseInt(text, 10)` without a fallback: `undefined` and text without digits give NaN. */
  function ParseNumber(text: Option<string>): JsNum
  {
    if text.None? then NaN
    else match ParseInt(text.value)
      case Some(n) => Num(n)
      case None => NaN
  }

  // ---------------------------------------------------------------------------
  // isLocalIp and the protocol chain

  /** `isLocalIp(ip)`: `ip && ip.startsWith('192.168.2.')`. */
  predicate IsHomeLanIp(ip: Option<string>)
  {
    ip.Some? && StartsWith(ip.value, "192.168.2.")
  }

  /** The home network is one of the private ranges the later versions test for. */
  lemma HomeLanIsLocal(ip: string)
    requires IsHomeLanIp(Some(ip))
    ensures IsLocalIp(ip)
  {
    var rest := ip[10..];
    assert ip == "192" + ['.'] + ("168" + ['.'] + ("2." + rest));
    SplitAtFirst("168", '.', "2." + rest);
    SplitAtFirst("192", '.', "168" + ['.'] + ("2." + rest));
  }

  /** The later versions count more addresses as local than the home network. */
  lemma LocalIsWiderThanHomeLan()
    ensures IsLocalIp("10") && !IsHomeLanIp(Some("10"))
  {
    SplitFree("10", '.');
  }

  /** `truncateProtocols` of compact-tshark-stream.js: `protocols && protocols.split(':')[2]`,
      the third layer, `undefined` when there are fewer than three. It is not called: the script's
      `compact` keeps layers 2 to 7 instead. */
  function ThirdLayer(protocols: Option<string>): Option<string>
  {
    match protocols
    case None => None
    case Some(p) => if p == "" then Some("") else Field(Split(p, ':'), 2)
  }

  /** The third layer is the first layer the kept chain starts with. */
  lemma ThirdLayerStartsKeptChain(p: string)
    requires |Split(p, ':')| > 2
    ensures ThirdLayer(Some(p)).Some?
    ensures Split(CompactProtocols(p), ':')[0] == ThirdLayer(Some(p)).value
  {
    CompactProtocolsLayers(p);
    SplitFree("", ':');
  }

  /** The protocol compact-tshark-stream.js's `compact` keys by:
      `frameProtocols && frameProtocols.split(':').slice(2, 8).join(':')`. */
  function KeptLayers(protocols: Option<string>): Option<string>
  {
    match protocols
    case None => None
    case Some(p) => Some(CompactProtocols(p))
  }

  /** `truncateProtocols` of compact-json-stream.js: `protocols && protocols.split(':').slice(0, 8).join(':')`. */
  function FirstEightLayers(protocols: Option<string>): Option<string>
  {
    match protocols
    case None => None
    case Some(p) => Some(Join(Slice(Split(p, ':'), 0, 8), ':'))
  }

  /** At most the first eight layers are kept, unchanged. */
  lemma FirstEightLayersKept(p: string)
    ensures Split(FirstEightLayers(Some(p)).value, ':') == Split(p, ':')[..if |Split(p, ':')| < 8 then |Split(p, ':')| else 8]
  {
    var segs := Split(p, ':');
    SplitPartsFree(p, ':');
    var kept := Slice(segs, 0, 8);
    assert forall i :: 0 <= i < |kept| ==> Free(kept[i], ':') by {
      forall i | 0 <= i < |kept| ensures Free(kept[i], ':') {
        assert kept[i] == segs[i];
      }
    }
    SplitJoin(kept, ':');
  }

  // ---------------------------------------------------------------------------
  // Reading packets

  /** A buffered packet: its length, its protocol chain, its addresses and its ports, each as
      read (`undefined` when absent). */
  datatype RawPacket = RawPacket(
    frameLen: JsNum,
    protocols: Option<string>,
    ipSrc: Option<string>,
    ipDst: Option<string>,
    srcPort: Option<string>,
    dstPort: Option<string>)

  /** The `'line'` handler of compact-tshark-stream.js: eight tab-separated fields, length first,
      each side's port the TCP port or else the UDP port. Every line is buffered. */
  function ParseTsvLine(line: string): RawPacket
  {
    var f := Split(line, '\t');
    RawPacket(ParseNumber(Field(f, 0)), Field(f, 1), Field(f, 2), Field(f, 3),
              Or(Field(f, 4), Field(f, 6)), Or(Field(f, 5), Field(f, 7)))
  }

  /** One line as the capture tool prints it for this script. */
  datatype TsvRecord = TsvRecord(
    frameLen: nat, protocols: string, ipSrc: string, ipDst: string,
    tcpSrcPort: string, tcpDstPort: string, udpSrcPort: string, udpDstPort: string)

  function TsvLine(r: TsvRecord): string
  {
    Join([DecimalText(r.frameLen), r.protocols, r.ipSrc, r.ipDst,
          r.tcpSrcPort, r.tcpDstPort, r.udpSrcPort, r.udpDstPort], '\t')
  }

  /** A line without tabs inside its fields is read back into its record's values; the TCP port
      is taken unless it is empty. */
  lemma ParseTsvLineReadsRecord(r: TsvRecord)
    requires Free(r.protocols, '\t') && Free(r.ipSrc, '\t') && Free(r.ipDst, '\t')
    requires Free(r.tcpSrcPort, '\t') && Free(r.tcpDstPort, '\t') && Free(r.udpSrcPort, '\t') && Free(r.udpDstPort, '\t')
    ensures ParseTsvLine(TsvLine(r)) == RawPacket(
      Num(r.frameLen), Some(r.protocols), Some(r.ipSrc), Some(r.ipDst),
      Some(if r.tcpSrcPort != "" then r.tcpSrcPort else r.udpSrcPort),
      Some(if r.tcpDstPort != "" then r.tcpDstPort else r.udpDstPort))
  {
    var t := DecimalText(r.frameLen);
    assert Free(t, '\t') by {
      forall i | 0 <= i < |t| ensures t[i] != '\t' { assert IsDigit(t[i]); }
    }
    SplitJoin([t, r.protocols, r.ipSrc, r.ipDst, r.tcpSrcPort, r.tcpDstPort, r.udpSrcPort, r.udpDstPort], '\t');
    ParseDecimalText(r.frameLen);
  }

  /** A length that does not parse is kept as NaN (there is no `|| 0` here). */
  lemma UnparsableLengthIsNaN(line: string)
    requires ParseInt(Split(line, '\t')[0]).None?
    ensures ParseTsvLine(line).frameLen == NaN
  {
  }

  /** The layers of one packet in the capture tool's JSON output, with the members these
      scripts read: `frame.protocols` and `frame.len`, `ip.src` and `ip.dst`, and each
      transport layer's source and destination port. */
  datatype FrameLayer = FrameLayer(protocols: Option<string>, len: Option<string>)
  datatype IpLayer = IpLayer(src: Option<string>, dst: Option<string>)
  datatype PortLayer = PortLayer(srcport: Option<string>, dstport: Option<string>)
  datatype Layers = Layers(frame: FrameLayer, ip: Option<IpLayer>, tcp: Option<PortLayer>, udp: Option<PortLayer>)

  /** `parseSrcPort(layers)`: the TCP layer's source port when there is a TCP layer, else the UDP
      layer's, else `undefined`. */
  function ParseSrcPort(layers: Layers): (r: Option<string>)
  {
    if layers.tcp.Some? then layers.tcp.value.srcport
    else if layers.udp.Some? then layers.udp.value.srcport
    else None
  }

  /** `parseDstPort(layers)`, the same for the destination port. */
  function ParseDstPort(layers: Layers): (r: Option<string>)
  {
    if layers.tcp.Some? then layers.tcp.value.dstport
    else if layers.udp.Some? then layers.udp.value.dstport
    else None
  }

  /** A TCP layer decides both ports whatever the UDP layer holds; without either layer both
      ports are `undefined`. */
  lemma PortsPreferTcp(layers: Layers, udp: Option<PortLayer>)
    requires layers.tcp.Some?
    ensures ParseSrcPort(layers) == ParseSrcPort(layers.(udp := udp)) == layers.tcp.value.srcport
    ensures ParseDstPort(layers) == ParseDstPort(layers.(udp := udp)) == layers.tcp.value.dstport
    ensures ParseSrcPort(layers.(tcp := None, udp := None)) == None
    ensures ParseDstPort(layers.(tcp := None, udp := None)) == None
  {
  }

  /** The handler of compact-json-stream.js: packets without an `ip` layer are not buffered. */
  function ParseLayers(layers: Layers): Option<RawPacket>
  {
    if layers.ip.None? then None
    else Some(RawPacket(ParseNumber(layers.frame.len), layers.frame.protocols,
                        layers.ip.value.src, layers.ip.value.dst, ParseSrcPort(layers), ParseDstPort(layers)))
  }

  // ---------------------------------------------------------------------------
  // compact

  /** The parts of the flow key `compact` builds; every part may be `undefined`. */
  datatype LegacyKey = LegacyKey(localIp: Option<string>, remoteIp: Option<string>, remotePort: Option<string>, protocol: Option<string>)

  /** The property name the entry is stored under: `${localIp}:${remoteIp}:${remotePort}:${protocol}`. */
  function KeyText(k: LegacyKey): string
  {
    TemplateText(k.localIp) + ":" + TemplateText(k.remoteIp) + ":" + TemplateText(k.remotePort) + ":" + TemplateText(k.protocol)
  }

  /** Parts that print alike share one entry: an `undefined` address and the address text
      "undefined", or a part with a colon in it. */
  lemma KeyTextMerges(remote: Option<string>, port: Option<string>, protocol: Option<string>)
    ensures LegacyKey(None, remote, port, protocol) != LegacyKey(Some("undefined"), remote, port, protocol)
    ensures KeyText(LegacyKey(None, remote, port, protocol)) == KeyText(LegacyKey(Some("undefined"), remote, port, protocol))
  {
  }

  /** One value of the map `compact` returns: the parts of the first packet stored under its
      property name, and the two counters. */
  datatype LegacyEntry = LegacyEntry(key: LegacyKey, download: JsNum, upload: JsNum)

  predicate IsUpload(p: RawPacket)
  {
    IsHomeLanIp(p.ipSrc)
  }

  /** The direction, the two addresses and the remote port are chosen by the source address;
      `protocolOf` is the script's way of shortening the protocol chain. */
  function KeyOfRaw(p: RawPacket, protocolOf: Option<string> -> Option<string>): LegacyKey
  {
    var up := IsUpload(p);
    LegacyKey(if up then p.ipSrc else p.ipDst, if up then p.ipDst else p.ipSrc,
              if up then p.dstPort else p.srcPort, protocolOf(p.protocols))
  }

  /** `map[key]` among the entries built so far. */
  function LegacyIndex(es: seq<LegacyEntry>, t: string): (i: int)
    ensures -1 <= i < |es|
    ensures i >= 0 ==> KeyText(es[i].key) == t
    ensures i < 0 ==> forall j :: 0 <= j < |es| ==> KeyText(es[j].key) != t
  {
    if |es| == 0 then -1
    else if KeyText(es[|es| - 1].key) == t then |es| - 1
    else LegacyIndex(es[..|es| - 1], t)
  }

  function CreditRaw(e: LegacyEntry, p: RawPacket): LegacyEntry
  {
    if IsUpload(p) then e.(upload := Plus(e.upload, p.frameLen)) else e.(download := Plus(e.download, p.frameLen))
  }

  function AddRaw(es: seq<LegacyEntry>, p: RawPacket, protocolOf: Option<string> -> Option<string>): seq<LegacyEntry>
  {
    var k := KeyOfRaw(p, protocolOf);
    var i := LegacyIndex(es, KeyText(k));
    if i < 0 then es + [CreditRaw(LegacyEntry(k, Num(0), Num(0)), p)]
    else es[i := CreditRaw(es[i], p)]
  }

  /** The entries `compact()` returns for the buffered packets, in insertion order. */
  function CompactRaw(ps: seq<RawPacket>, protocolOf: Option<string> -> Option<string>): seq<LegacyEntry>
  {
    if |ps| == 0 then [] else AddRaw(CompactRaw(ps[..|ps| - 1], protocolOf), ps[|ps| - 1], protocolOf)
  }

  function RawText(p: RawPacket, protocolOf: Option<string> -> Option<string>): string
  {
    KeyText(KeyOfRaw(p, protocolOf))
  }

  /** What one packet adds to the `upload` (or `download`) counter stored under `t`. */
  function RawShare(p: RawPacket, protocolOf: Option<string> -> Option<string>, t: string, upload: bool): JsNum
  {
    if RawText(p, protocolOf) == t && IsUpload(p) == upload then p.frameLen else Num(0)
  }

  /** The JavaScript sum, from 0 and in order, of the packets' shares under `t`. */
  function RawTotal(ps: seq<RawPacket>, protocolOf: Option<string> -> Option<string>, t: string, upload: bool): JsNum
  {
    if |ps| == 0 then Num(0) else Plus(RawTotal(ps[..|ps| - 1], protocolOf, t, upload), RawShare(ps[|ps| - 1], protocolOf, t, upload))
  }

  predicate DistinctLegacyKeys(es: seq<LegacyEntry>)
  {
    forall i, j :: 0 <= i < j < |es| ==> KeyText(es[i].key) != KeyText(es[j].key)
  }

  function LegacyKeys(es: seq<LegacyEntry>): set<string>
  {
    set i | 0 <= i < |es| :: KeyText(es[i].key)
  }

  function RawKeys(ps: seq<RawPacket>, protocolOf: Option<string> -> Option<string>): set<string>
  {
    set j | 0 <= j < |ps| :: RawText(ps[j], protocolOf)
  }

  /** Every entry's counters are the sums of the packets stored under its name. */
  predicate CountsPackets(es: seq<LegacyEntry>, ps: seq<RawPacket>, protocolOf: Option<string> -> Option<string>)
  {
    forall i :: 0 <= i < |es| ==>
      es[i].upload == RawTotal(ps, protocolOf, KeyText(es[i].key), true) && es[i].download == RawTotal(ps, protocolOf, KeyText(es[i].key), false)
  }

  /** A name without an entry has no packets. */
  ghost predicate NoStrayPackets(es: seq<LegacyEntry>, ps: seq<RawPacket>, protocolOf: Option<string> -> Option<string>)
  {
    forall t :: t !in LegacyKeys(es) ==> RawTotal(ps, protocolOf, t, true) == Num(0) && RawTotal(ps, protocolOf, t, false) == Num(0)
  }

  /** `j` is the first packet stored under name `t`. */
  predicate FirstUnder(ps: seq<RawPacket>, protocolOf: Option<string> -> Option<string>, t: string, j: int)
  {
    0 <= j < |ps| && RawText(ps[j], protocolOf) == t
    && forall i :: 0 <= i < j ==> RawText(ps[i], protocolOf) != t
  }

  /** The entry holds the parts of the first packet stored under its name. */
  ghost predicate FromFirst(e: LegacyEntry, ps: seq<RawPacket>, protocolOf: Option<string> -> Option<string>)
  {
    exists j :: FirstUnder(ps, protocolOf, KeyText(e.key), j) && KeyOfRaw(ps[j], protocolOf) == e.key
  }

  /** Every entry keeps the parts of the first packet stored under its name. */
  ghost predicate KeptFromFirst(es: seq<LegacyEntry>, ps: seq<RawPacket>, protocolOf: Option<string> -> Option<string>)
  {
    forall i :: 0 <= i < |es| ==> FromFirst(es[i], ps, protocolOf)
  }

  lemma RawKeysSnoc(ps: seq<RawPacket>, protocolOf: Option<string> -> Option<string>)
    requires |ps| > 0
    ensures RawKeys(ps, protocolOf) == RawKeys(ps[..|ps| - 1], protocolOf) + {RawText(ps[|ps| - 1], protocolOf)}
  {
    var prefix := ps[..|ps| - 1];
    forall t | t in RawKeys(ps, protocolOf) ensures t in RawKeys(prefix, protocolOf) + {RawText(ps[|ps| - 1], protocolOf)} {
      var j :| 0 <= j < |ps| && RawText(ps[j], protocolOf) == t;
      if j < |ps| - 1 { assert prefix[j] == ps[j]; }
    }
    forall t | t in RawKeys(prefix, protocolOf) ensures t in RawKeys(ps, protocolOf) {
      var j :| 0 <= j < |prefix| && RawText(prefix[j], protocolOf) == t;
      assert ps[j] == prefix[j];
    }
  }

  /** A new entry under a new name keeps the names distinct and adds its name. */
  lemma AppendEntryShape(es: seq<LegacyEntry>, e: LegacyEntry)
    requires DistinctLegacyKeys(es) && forall j :: 0 <= j < |es| ==> KeyText(es[j].key) != KeyText(e.key)
    ensures DistinctLegacyKeys(es + [e])
    ensures LegacyKeys(es + [e]) == LegacyKeys(es) + {KeyText(e.key)}
  {
    var r := es + [e];
    forall x | x in LegacyKeys(r) ensures x in LegacyKeys(es) + {KeyText(e.key)} {
      var j :| 0 <= j < |r| && KeyText(r[j].key) == x;
      if j < |es| { assert r[j] == es[j]; }
    }
    forall x | x in LegacyKeys(es) ensures x in LegacyKeys(r) {
      var j :| 0 <= j < |es| && KeyText(es[j].key) == x;
      assert r[j] == es[j];
    }
    assert r[|es|] == e;
  }

  /** Updating an entry's counters keeps the names. */
  lemma UpdateEntryShape(es: seq<LegacyEntry>, i: nat, e: LegacyEntry)
    requires DistinctLegacyKeys(es) && i < |es| && e.key == es[i].key
    ensures DistinctLegacyKeys(es[i := e])
    ensures LegacyKeys(es[i := e]) == LegacyKeys(es)
  {
    var r := es[i := e];
    forall x | x in LegacyKeys(r) ensures x in LegacyKeys(es) {
      var j :| 0 <= j < |r| && KeyText(r[j].key) == x;
      assert r[j].key == es[j].key;
    }
    forall x | x in LegacyKeys(es) ensures x in LegacyKeys(r) {
      var j :| 0 <= j < |es| && KeyText(es[j].key) == x;
      assert r[j].key == es[j].key;
    }
  }

  /** One step of `compact` keeps the entries in one-to-one correspondence with the names seen. */
  lemma AddRawShape(es: seq<LegacyEntry>, p: RawPacket, protocolOf: Option<string> -> Option<string>)
    requires DistinctLegacyKeys(es)
    ensures DistinctLegacyKeys(AddRaw(es, p, protocolOf))
    ensures LegacyKeys(AddRaw(es, p, protocolOf)) == LegacyKeys(es) + {RawText(p, protocolOf)}
  {
    var k := KeyOfRaw(p, protocolOf);
    var i := LegacyIndex(es, KeyText(k));
    if i < 0 {
      AppendEntryShape(es, CreditRaw(LegacyEntry(k, Num(0), Num(0)), p));
    } else {
      UpdateEntryShape(es, i, CreditRaw(es[i], p));
    }
  }

  /** One step of `compact` keeps every counter equal to its name's packet sum. */
  lemma AddRawCounts(es: seq<LegacyEntry>, ps: seq<RawPacket>, p: RawPacket, protocolOf: Option<string> -> Option<string>)
    requires DistinctLegacyKeys(es) && CountsPackets(es, ps, protocolOf) && NoStrayPackets(es, ps, protocolOf)
    ensures CountsPackets(AddRaw(es, p, protocolOf), ps + [p], protocolOf)
    ensures NoStrayPackets(AddRaw(es, p, protocolOf), ps + [p], protocolOf)
  {
    var r := AddRaw(es, p, protocolOf);
    var t := RawText(p, protocolOf);
    var qs := ps + [p];
    assert qs[..|qs| - 1] == ps;
    AddRawShape(es, p, protocolOf);
    forall i | 0 <= i < |r|
      ensures r[i].upload == RawTotal(qs, protocolOf, KeyText(r[i].key), true)
      ensures r[i].download == RawTotal(qs, protocolOf, KeyText(r[i].key), false)
    {
      if i < |es| && r[i] == es[i] {
        PlusZero(RawTotal(ps, protocolOf, KeyText(es[i].key), true));
        PlusZero(RawTotal(ps, protocolOf, KeyText(es[i].key), false));
        assert KeyText(es[i].key) != t || LegacyIndex(es, t) == i;
      } else if i == |es| {
        assert t !in LegacyKeys(es);
      }
    }
    forall x | x !in LegacyKeys(r)
      ensures RawTotal(qs, protocolOf, x, true) == Num(0) && RawTotal(qs, protocolOf, x, false) == Num(0)
    {
    }
  }

  /** One step of `compact` keeps every entry's parts those of its name's first packet. */
  lemma AddRawKeepsFirst(es: seq<LegacyEntry>, ps: seq<RawPacket>, p: RawPacket, protocolOf: Option<string> -> Option<string>)
    requires LegacyKeys(es) == RawKeys(ps, protocolOf) && KeptFromFirst(es, ps, protocolOf)
    ensures KeptFromFirst(AddRaw(es, p, protocolOf), ps + [p], protocolOf)
  {
    var r := AddRaw(es, p, protocolOf);
    var qs := ps + [p];
    forall i | 0 <= i < |r|
      ensures FromFirst(r[i], qs, protocolOf)
    {
      if i < |es| {
        assert r[i].key == es[i].key;
        var j :| FirstUnder(ps, protocolOf, KeyText(es[i].key), j) && KeyOfRaw(ps[j], protocolOf) == es[i].key;
        assert qs[j] == ps[j];
        forall m | 0 <= m < j ensures RawText(qs[m], protocolOf) != KeyText(r[i].key) {
          assert qs[m] == ps[m];
        }
        assert FirstUnder(qs, protocolOf, KeyText(r[i].key), j) && KeyOfRaw(qs[j], protocolOf) == r[i].key;
      } else {
        var t := RawText(p, protocolOf);
        assert LegacyIndex(es, t) < 0;
        assert t !in RawKeys(ps, protocolOf);
        forall m | 0 <= m < |ps| ensures RawText(qs[m], protocolOf) != t {
          assert qs[m] == ps[m];
        }
        assert r[i].key == KeyOfRaw(p, protocolOf) && qs[|ps|] == p;
        assert FirstUnder(qs, protocolOf, KeyText(r[i].key), |ps|) && KeyOfRaw(qs[|ps|], protocolOf) == r[i].key;
      }
    }
  }

  lemma {:induction false} CompactRawShape(ps: seq<RawPacket>, protocolOf: Option<string> -> Option<string>)
    ensures DistinctLegacyKeys(CompactRaw(ps, protocolOf))
    ensures LegacyKeys(CompactRaw(ps, protocolOf)) == RawKeys(ps, protocolOf)
    decreases |ps|
  {
    if |ps| > 0 {
      var prefix, p := ps[..|ps| - 1], ps[|ps| - 1];
      CompactRawShape(prefix, protocolOf);
      AddRawShape(CompactRaw(prefix, protocolOf), p, protocolOf);
      RawKeysSnoc(ps, protocolOf);
    }
  }

  lemma {:induction false} CompactRawCounts(ps: seq<RawPacket>, protocolOf: Option<string> -> Option<string>)
    ensures CountsPackets(CompactRaw(ps, protocolOf), ps, protocolOf)
    ensures NoStrayPackets(CompactRaw(ps, protocolOf), ps, protocolOf)
    decreases |ps|
  {
    if |ps| > 0 {
      var prefix, p := ps[..|ps| - 1], ps[|ps| - 1];
      CompactRawCounts(prefix, protocolOf);
      CompactRawShape(prefix, protocolOf);
      assert prefix + [p] == ps;
      AddRawCounts(CompactRaw(prefix, protocolOf), prefix, p, protocolOf);
    }
  }

  lemma {:induction false} CompactRawKeepsFirst(ps: seq<RawPacket>, protocolOf: Option<string> -> Option<string>)
    ensures KeptFromFirst(CompactRaw(ps, protocolOf), ps, protocolOf)
    decreases |ps|
  {
    if |ps| > 0 {
      var prefix, p := ps[..|ps| - 1], ps[|ps| - 1];
      CompactRawKeepsFirst(prefix, protocolOf);
      CompactRawShape(prefix, protocolOf);
      assert prefix + [p] == ps;
      AddRawKeepsFirst(CompactRaw(prefix, protocolOf), prefix, p, protocolOf);
    }
  }

  /** Some packet stored under `t` in that direction has a length that did not parse. */
  predicate HasNaN(ps: seq<RawPacket>, protocolOf: Option<string> -> Option<string>, t: string, upload: bool)
  {
    exists j :: 0 <= j < |ps| && RawShare(ps[j], protocolOf, t, upload).NaN?
  }

  /** The integer sum of the lengths that did parse. */
  function NumTotal(ps: seq<RawPacket>, protocolOf: Option<string> -> Option<string>, t: string, upload: bool): int
  {
    if |ps| == 0 then 0
    else
      var share := RawShare(ps[|ps| - 1], protocolOf, t, upload);
      NumTotal(ps[..|ps| - 1], protocolOf, t, upload) + (if share.NaN? then 0 else share.n)
  }

  lemma HasNaNSnoc(ps: seq<RawPacket>, protocolOf: Option<string> -> Option<string>, t: string, upload: bool)
    requires |ps| > 0
    ensures HasNaN(ps, protocolOf, t, upload)
        <==> HasNaN(ps[..|ps| - 1], protocolOf, t, upload) || RawShare(ps[|ps| - 1], protocolOf, t, upload).NaN?
  {
    var prefix := ps[..|ps| - 1];
    if HasNaN(prefix, protocolOf, t, upload) {
      var j :| 0 <= j < |prefix| && RawShare(prefix[j], protocolOf, t, upload).NaN?;
      assert ps[j] == prefix[j];
    }
    if HasNaN(ps, protocolOf, t, upload) && !RawShare(ps[|ps| - 1], protocolOf, t, upload).NaN? {
      var j :| 0 <= j < |ps| && RawShare(ps[j], protocolOf, t, upload).NaN?;
      assert prefix[j] == ps[j];
    }
  }

  /** A JavaScript sum is NaN exactly when one of its terms is; otherwise it is the integer sum. */
  lemma {:induction false} RawTotalValue(ps: seq<RawPacket>, protocolOf: Option<string> -> Option<string>, t: string, upload: bool)
    ensures RawTotal(ps, protocolOf, t, upload)
         == if HasNaN(ps, protocolOf, t, upload) then NaN else Num(NumTotal(ps, protocolOf, t, upload))
    decreases |ps|
  {
    if |ps| > 0 {
      RawTotalValue(ps[..|ps| - 1], protocolOf, t, upload);
      HasNaNSnoc(ps, protocolOf, t, upload);
    }
  }

  /** `compact` yields exactly one entry per distinct property name of the buffered packets,
      holding the parts of the first packet under that name; its `upload` is the JavaScript sum
      of the lengths of that name's upload packets and its `download` that of the others: NaN as
      soon as one of those lengths did not parse, the integer sum otherwise. */
  lemma CompactRawCounters(ps: seq<RawPacket>, protocolOf: Option<string> -> Option<string>)
    ensures DistinctLegacyKeys(CompactRaw(ps, protocolOf))
    ensures LegacyKeys(CompactRaw(ps, protocolOf)) == RawKeys(ps, protocolOf)
    ensures KeptFromFirst(CompactRaw(ps, protocolOf), ps, protocolOf)
    ensures forall i :: 0 <= i < |CompactRaw(ps, protocolOf)| ==>
      var e := CompactRaw(ps, protocolOf)[i];
      && e.upload == (if HasNaN(ps, protocolOf, KeyText(e.key), true) then NaN else Num(NumTotal(ps, protocolOf, KeyText(e.key), true)))
      && e.download == (if HasNaN(ps, protocolOf, KeyText(e.key), false) then NaN else Num(NumTotal(ps, protocolOf, KeyText(e.key), false)))
  {
    CompactRawShape(ps, protocolOf);
    CompactRawCounts(ps, protocolOf);
    CompactRawKeepsFirst(ps, protocolOf);
    var es := CompactRaw(ps, protocolOf);
    forall i | 0 <= i < |es|
      ensures es[i].upload == (if HasNaN(ps, protocolOf, KeyText(es[i].key), true) then NaN else Num(NumTotal(ps, protocolOf, KeyText(es[i].key), true)))
      ensures es[i].download == (if HasNaN(ps, protocolOf, KeyText(es[i].key), false) then NaN else Num(NumTotal(ps, protocolOf, KeyText(es[i].key), false)))
    {
      RawTotalValue(ps, protocolOf, KeyText(CompactRaw(ps, protocolOf)[i].key), true);
      RawTotalValue(ps, protocolOf, KeyText(CompactRaw(ps, protocolOf)[i].key), false);
    }
  }

  /** One unparsable length makes that direction's counter of its entry NaN. */
  lemma OneNaNPoisons(ps: seq<RawPacket>, protocolOf: Option<string> -> Option<string>, j: nat)
    requires j < |ps| && ps[j].frameLen == NaN
    ensures exists i :: 0 <= i < |CompactRaw(ps, protocolOf)| && KeyText(CompactRaw(ps, protocolOf)[i].key) == RawText(ps[j], protocolOf)
                     && (if IsUpload(ps[j]) then CompactRaw(ps, protocolOf)[i].upload else CompactRaw(ps, protocolOf)[i].download) == NaN
  {
    var t := RawText(ps[j], protocolOf);
    CompactRawCounters(ps, protocolOf);
    assert t in RawKeys(ps, protocolOf);
    var i :| 0 <= i < |CompactRaw(ps, protocolOf)| && KeyText(CompactRaw(ps, protocolOf)[i].key) == t;
    assert HasNaN(ps, protocolOf, t, IsUpload(ps[j]));
  }

  // ---------------------------------------------------------------------------
  // The packet buffer

  /** The module-level `packets` buffer of either script and its `compact`; `protocolOf` is
      `KeptLayers` in compact-tshark-stream.js and `FirstEightLayers` in compact-json-stream.js. */
  class PacketBuffer {
    const protocolOf: Option<string> -> Option<string>
    var packets: seq<RawPacket>

    constructor (protocolOf: Option<string> -> Option<string>)
      ensures this.protocolOf == protocolOf && packets == []
    {
      this.protocolOf := protocolOf;
      packets := [];
    }

    /** The `'line'` handler of compact-tshark-stream.js: every line is buffered. */
    method ConsumeTsvLine(line: string)
      modifies this
      ensures packets == old(packets) + [ParseTsvLine(line)]
    {
      packets := packets + [ParseTsvLine(line)];
    }

    /** The layer handler of compact-json-stream.js: only packets with an `ip` layer are buffered. */
    method ConsumeLayers(layers: Layers)
      modifies this
      ensures layers.ip.None? ==> packets == old(packets)
      ensures layers.ip.Some? ==> packets == old(packets) + [ParseLayers(layers).value]
    {
      if layers.ip.None? {
        return;
      }
      packets := packets + [ParseLayers(layers).value];
    }

    /** `compact()`: fold the buffer into one entry per key, then empty the buffer. */
    method Compact() returns (entries: seq<LegacyEntry>)
      modifies this
      ensures entries == CompactRaw(old(packets), protocolOf) && packets == []
    {
      entries := CompactBuffer(packets, protocolOf);
      packets := [];
    }
  }

  /** The loop of `compact()` over the buffered packets: look the property name up, create the
      entry with zero counters when it is new, and add the length to one of its counters. */
  method CompactBuffer(packets: seq<RawPacket>, protocolOf: Option<string> -> Option<string>) returns (entries: seq<LegacyEntry>)
    ensures entries == CompactRaw(packets, protocolOf)
    ensures DistinctLegacyKeys(entries) && LegacyKeys(entries) == RawKeys(packets, protocolOf)
  {
    entries := [];
    var n := 0;
    while n < |packets|
      invariant 0 <= n <= |packets|
      invariant entries == CompactRaw(packets[..n], protocolOf)
    {
      var packet := packets[n];
      var key := KeyOfRaw(packet, protocolOf);
      ghost var before := entries;
      var i := LegacyIndex(entries, KeyText(key));
      if i < 0 {
        entries := entries + [LegacyEntry(key, Num(0), Num(0))];
        i := |entries| - 1;
      }
      var entry := entries[i];
      if IsUpload(packet) {
        entry := entry.(upload := Plus(entry.upload, packet.frameLen));
      } else {
        entry := entry.(download := Plus(entry.download, packet.frameLen));
      }
      entries := entries[i := entry];
      assert entries == AddRaw(before, packet, protocolOf);
      assert packets[..n + 1][..n] == packets[..n];
      n := n + 1;
    }
    assert packets[..n] == packets;
    CompactRawShape(packets, protocolOf);
  }

  // ---------------------------------------------------------------------------
  // reportTimeFrane (compact-tshark-stream.js)

  /** `{download, upload}` with JavaScript numbers. */
  datatype JsCounters = JsCounters(download: JsNum, upload: JsNum)

  /** `{local: {...}, remote: {...}}`, keyed by the address as a property name. */
  datatype LegacyDoc = LegacyDoc(local: map<string, JsCounters>, remote: map<string, JsCounters>)

  /** A time frame's file: a document, or a file that cannot be read or parsed. */
  datatype LegacyFile = Document(doc: LegacyDoc) | Unreadable

  function GetJs(m: map<string, JsCounters>, ip: string): (c: JsCounters)
    ensures ip !in m ==> c == JsCounters(Num(0), Num(0))
  {
    if ip in m then m[ip] else JsCounters(Num(0), Num(0))
  }

  function AddJs(c: JsCounters, e: LegacyEntry): JsCounters
  {
    JsCounters(Plus(c.download, e.download), Plus(c.upload, e.upload))
  }

  /** One iteration of the loop; an `undefined` address is the property "undefined". */
  function MergeLegacyEntry(d: LegacyDoc, e: LegacyEntry): LegacyDoc
  {
    var l, r := TemplateText(e.key.localIp), TemplateText(e.key.remoteIp);
    LegacyDoc(d.local[l := AddJs(GetJs(d.local, l), e)], d.remote[r := AddJs(GetJs(d.remote, r), e)])
  }

  function MergeLegacy(d: LegacyDoc, es: seq<LegacyEntry>): LegacyDoc
  {
    if |es| == 0 then d else MergeLegacyEntry(MergeLegacy(d, es[..|es| - 1]), es[|es| - 1])
  }

  /** The address an entry is added under, on the local or on the remote side. */
  function SideAddress(e: LegacyEntry, local: bool): string
  {
    TemplateText(if local then e.key.localIp else e.key.remoteIp)
  }

  function Side(d: LegacyDoc, local: bool): map<string, JsCounters>
  {
    if local then d.local else d.remote
  }

  /** The JavaScript sum of the entries' counters for one address on one side. */
  function EntriesTotal(es: seq<LegacyEntry>, local: bool, ip: string, upload: bool): JsNum
  {
    if |es| == 0 then Num(0)
    else
      var e := es[|es| - 1];
      Plus(EntriesTotal(es[..|es| - 1], local, ip, upload),
           if SideAddress(e, local) == ip then (if upload then e.upload else e.download) else Num(0))
  }

  /** After the merge, each address holds what it held (`{0, 0}` when absent) plus its entries'
      counters, in JavaScript arithmetic. */
  lemma {:induction false} MergeLegacyCounter(d: LegacyDoc, es: seq<LegacyEntry>, local: bool, ip: string)
    ensures GetJs(Side(MergeLegacy(d, es), local), ip)
         == JsCounters(Plus(GetJs(Side(d, local), ip).download, EntriesTotal(es, local, ip, false)),
                       Plus(GetJs(Side(d, local), ip).upload, EntriesTotal(es, local, ip, true)))
    decreases |es|
  {
    var c := GetJs(Side(d, local), ip);
    if |es| == 0 {
      PlusZero(c.download);
      PlusZero(c.upload);
    } else {
      var prefix, e := es[..|es| - 1], es[|es| - 1];
      MergeLegacyCounter(d, prefix, local, ip);
      if SideAddress(e, local) == ip {
        PlusAssociates(c.download, EntriesTotal(prefix, local, ip, false), e.download);
        PlusAssociates(c.upload, EntriesTotal(prefix, local, ip, true), e.upload);
      } else {
        PlusZero(EntriesTotal(prefix, local, ip, false));
        PlusZero(EntriesTotal(prefix, local, ip, true));
      }
    }
  }

  /** No address is removed and only the entries' addresses are added. */
  lemma {:induction false} MergeLegacyAddresses(d: LegacyDoc, es: seq<LegacyEntry>, local: bool)
    ensures Side(MergeLegacy(d, es), local).Keys == Side(d, local).Keys + set i | 0 <= i < |es| :: SideAddress(es[i], local)
    decreases |es|
  {
    if |es| > 0 {
      var prefix := es[..|es| - 1];
      MergeLegacyAddresses(d, prefix, local);
      assert (set i | 0 <= i < |es| :: SideAddress(es[i], local))
          == (set i | 0 <= i < |prefix| :: SideAddress(prefix[i], local)) + {SideAddress(es[|es| - 1], local)} by {
        forall i | 0 <= i < |prefix| ensures prefix[i] == es[i] { }
      }
    }
  }

  /** `JSON.stringify` writes NaN as `null`, and the next report's `null + n` is `n`: once stored,
      a NaN counter counts as 0. */
  function StoredNum(n: JsNum): (r: JsNum)
    ensures r.Num?
    ensures n.Num? ==> r == n
  {
    if n.NaN? then Num(0) else n
  }

  function StoredSide(m: map<string, JsCounters>): (r: map<string, JsCounters>)
  {
    map ip | ip in m :: JsCounters(StoredNum(m[ip].download), StoredNum(m[ip].upload))
  }

  /** The document as the next read of its file finds it. */
  function Stored(d: LegacyDoc): (r: LegacyDoc)
  {
    LegacyDoc(StoredSide(d.local), StoredSide(d.remote))
  }

  /** Storing keeps every address, keeps every number and turns each NaN into 0. */
  lemma StoredKeepsNumbers(d: LegacyDoc, local: bool, ip: string)
    ensures Side(Stored(d), local).Keys == Side(d, local).Keys
    ensures ip in Side(d, local) ==>
      var c, s := Side(d, local)[ip], Side(Stored(d), local)[ip];
      && s.download == (if c.download.NaN? then Num(0) else c.download)
      && s.upload == (if c.upload.NaN? then Num(0) else c.upload)
  {
  }

  /** `reportTimeFrane(map, timeFrame)`: read `${timeFrame}.json` (the empty document when it does
      not exist; a file that cannot be read or parsed throws), add every entry into its local and
      its remote address, and write the document back as JSON. */
  method ReportTimeFrane(files: map<string, LegacyFile>, entries: seq<LegacyEntry>, timeFrame: string)
    returns (result: map<string, LegacyFile>, ok: bool)
    ensures var name := timeFrame + ".json";
      && (ok <==> name !in files || files[name].Document?)
      && (!ok ==> result == files)
      && (ok ==> result == files[name := Document(Stored(MergeLegacy(if name in files then files[name].doc else LegacyDoc(map[], map[]), entries)))])
  {
    var name := timeFrame + ".json";
    var data: LegacyDoc;
    if name !in files {
      data := LegacyDoc(map[], map[]);
    } else if files[name].Unreadable? {
      return files, false;
    } else {
      data := files[name].doc;
    }
    var local, remote := data.local, data.remote;
    var i := 0;
    while i < |entries|
      invariant 0 <= i <= |entries|
      invariant LegacyDoc(local, remote) == MergeLegacy(data, entries[..i])
    {
      var entry := entries[i];
      var l, r := TemplateText(entry.key.localIp), TemplateText(entry.key.remoteIp);
      if l !in local {
        local := local[l := JsCounters(Num(0), Num(0))];
      }
      local := local[l := JsCounters(Plus(local[l].download, entry.download), Plus(local[l].upload, entry.upload))];
      if r !in remote {
        remote := remote[r := JsCounters(Num(0), Num(0))];
      }
      remote := remote[r := JsCounters(Plus(remote[r].download, entry.download), Plus(remote[r].upload, entry.upload))];
      assert entries[..i + 1][..i] == entries[..i];
      i := i + 1;
    }
    assert entries[..i] == entries;
    result, ok := files[name := Document(Stored(LegacyDoc(local, remote)))], true;
  }
}
