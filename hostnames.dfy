/** The hostname cache of src/resolve-hostnames-by-ip.js: an insertion-ordered map
    from address to the last name a reverse lookup gave for it, persisted as a list
    of `[ip, name]` pairs. An address is looked up only when the map does not have
    it yet; there is no expiry, so an address is never looked up twice. */
module HostNames {
  import opened Common
  import opened JsText

  /** The outcome of `resolver.reverse(ip)`: the names, or a rejected promise. */
  datatype DnsAnswer = Names(names: seq<string>) | Failure

  /** `reverse(ip)`: a failed lookup reads as `['unresolved']`. */
  function Reverse(answer: DnsAnswer): seq<string>
  {
    match answer
    case Names(names) => names
    case Failure => ["unresolved"]
  }

  /** `hostNames.slice(-1)[0]`: the last name, `undefined` for an empty list. */
  function LastName(names: seq<string>): Option<string>
  {
    if |names| == 0 then None else Some(names[|names| - 1])
  }

  // ---------------------------------------------------------------------------
  // The map and its store

  /** A JavaScript `Map` from address to name: its keys in insertion order and its entries. */
  datatype HostMap = HostMap(order: seq<string>, names: map<string, Option<string>>)

  const EmptyHostMap := HostMap([], map[])

  predicate Distinct(xs: seq<string>)
  {
    forall i, j :: 0 <= i < j < |xs| ==> xs[i] != xs[j]
  }

  /** The order lists each key of the map exactly once. */
  ghost predicate WellFormed(h: HostMap)
  {
    Distinct(h.order) && (forall ip :: ip in h.names <==> ip in h.order)
  }

  /** `map.set(ip, name)`: a new key goes to the end; an existing key keeps its place. */
  function Put(h: HostMap, ip: string, name: Option<string>): (r: HostMap)
    ensures WellFormed(h) ==> WellFormed(r)
    ensures r.names == h.names[ip := name]
  {
    if ip in h.names then h.(names := h.names[ip := name]) else HostMap(h.order + [ip], h.names[ip := name])
  }

  /** One `[ip, name]` pair of the store; `None` is written as `null`. */
  type Pair = (string, Option<string>)

  function PairsOf(order: seq<string>, names: map<string, Option<string>>): (ps: seq<Pair>)
    requires forall ip :: ip in order ==> ip in names
    ensures |ps| == |order|
  {
    if |order| == 0 then [] else PairsOf(order[..|order| - 1], names) + [(order[|order| - 1], names[order[|order| - 1]])]
  }

  /** `[...map]`: the entries as pairs, in insertion order. */
  function Serialize(h: HostMap): (ps: seq<Pair>)
    requires WellFormed(h)
    ensures |ps| == |h.order|
  {
    PairsOf(h.order, h.names)
  }

  /** `new Map(pairs)`: the pairs set one by one, so a repeated key keeps its first place and its last name. */
  function Deserialize(ps: seq<Pair>): (h: HostMap)
    ensures WellFormed(h)
  {
    if |ps| == 0 then EmptyHostMap else Put(Deserialize(ps[..|ps| - 1]), ps[|ps| - 1].0, ps[|ps| - 1].1)
  }

  lemma {:induction false} DeserializePairs(order: seq<string>, names: map<string, Option<string>>)
    requires Distinct(order) && forall ip :: ip in order ==> ip in names
    ensures Deserialize(PairsOf(order, names)) == HostMap(order, map ip | ip in order :: names[ip])
    decreases |order|
  {
    if |order| > 0 {
      var init, x := order[..|order| - 1], order[|order| - 1];
      DistinctSnoc(order);
      assert order == init + [x];
      DeserializePairs(init, names);
      DeserializeStep(init, x, names);
    }
  }

  lemma DistinctSnoc(xs: seq<string>)
    requires Distinct(xs) && |xs| > 0
    ensures Distinct(xs[..|xs| - 1]) && xs[|xs| - 1] !in xs[..|xs| - 1]
  {
    var init := xs[..|xs| - 1];
    forall i, j | 0 <= i < j < |init| ensures init[i] != init[j] {
      assert init[i] == xs[i] && init[j] == xs[j];
    }
    forall j | 0 <= j < |init| ensures init[j] != xs[|xs| - 1] {
      assert init[j] == xs[j];
    }
  }

  lemma DeserializeStep(init: seq<string>, x: string, names: map<string, Option<string>>)
    requires x !in init && forall ip :: ip in init + [x] ==> ip in names
    requires Deserialize(PairsOf(init, names)) == HostMap(init, map ip | ip in init :: names[ip])
    ensures Deserialize(PairsOf(init + [x], names)) == HostMap(init + [x], map ip | ip in init + [x] :: names[ip])
  {
    var ps := PairsOf(init + [x], names);
    assert (init + [x])[..|init|] == init;
    assert ps[..|ps| - 1] == PairsOf(init, names);
    var m := map ip | ip in init :: names[ip];
    assert x !in m;
    assert Deserialize(ps) == Put(HostMap(init, m), x, names[x]);
    MapSnoc(init, x, names);
  }

  lemma MapSnoc(init: seq<string>, x: string, names: map<string, Option<string>>)
    requires forall ip :: ip in init + [x] ==> ip in names
    ensures (map ip | ip in init :: names[ip])[x := names[x]] == map ip | ip in init + [x] :: names[ip]
  {
    var a := (map ip | ip in init :: names[ip])[x := names[x]];
    var b := map ip | ip in init + [x] :: names[ip];
    assert forall ip :: ip in init + [x] <==> ip in init || ip == x;
    assert a.Keys == b.Keys;
  }

  /** Writing the map to the store and reading it back gives the same map, order included. */
  lemma StoreRoundTrip(h: HostMap)
    requires WellFormed(h)
    ensures Deserialize(Serialize(h)) == h
  {
    DeserializePairs(h.order, h.names);
    assert (map ip | ip in h.order :: h.names[ip]) == h.names;
  }

  /** The store file: absent, present but unreadable (or not a JSON list of pairs), or the pairs. */
  datatype StoreFile = Missing | Unreadable | Pairs(pairs: seq<Pair>)

  /** `readIpToHostNameStore`: a missing file is an empty map, an unreadable one an error. */
  function ReadStore(file: StoreFile): (r: Option<HostMap>)
    ensures r.Some? ==> WellFormed(r.value)
  {
    match file
    case Missing => Some(EmptyHostMap)
    case Unreadable => None
    case Pairs(ps) => Some(Deserialize(ps))
  }

  // ---------------------------------------------------------------------------
  // What resolving does to the map

  /** The map after `resolveIp(ip)`. */
  function Resolved(h: HostMap, ip: string, dns: string -> DnsAnswer): HostMap
  {
    if ip in h.names then h else Put(h, ip, LastName(Reverse(dns(ip))))
  }

  /** The map after `resolveIps(ips)`. */
  function ResolvedAll(h: HostMap, ips: seq<string>, dns: string -> DnsAnswer): HostMap
  {
    if |ips| == 0 then h else Resolved(ResolvedAll(h, ips[..|ips| - 1], dns), ips[|ips| - 1], dns)
  }

  /** The addresses `resolveIps(ips)` sends to the name server, in order. */
  function LookedUp(h: HostMap, ips: seq<string>, dns: string -> DnsAnswer): seq<string>
  {
    if |ips| == 0 then []
    else
      var before := ResolvedAll(h, ips[..|ips| - 1], dns);
      LookedUp(h, ips[..|ips| - 1], dns) + (if ips[|ips| - 1] in before.names then [] else [ips[|ips| - 1]])
  }

  /** After `resolveIp(ip)` the address is in the map; a new address gets the last name of its
      lookup; every other address keeps its name and no address is removed. */
  lemma ResolvedEffect(h: HostMap, ip: string, dns: string -> DnsAnswer)
    requires WellFormed(h)
    ensures WellFormed(Resolved(h, ip, dns))
    ensures ip in Resolved(h, ip, dns).names
    ensures ip in h.names ==> Resolved(h, ip, dns) == h
    ensures ip !in h.names ==> Resolved(h, ip, dns).names[ip] == LastName(Reverse(dns(ip)))
    ensures ip !in h.names ==> Resolved(h, ip, dns).order == h.order + [ip]
    ensures forall other :: other in h.names ==>
      other in Resolved(h, ip, dns).names && Resolved(h, ip, dns).names[other] == h.names[other]
  {
  }

  /** A failed lookup stores and returns 'unresolved'. */
  lemma FailedLookupIsUnresolved(h: HostMap, ip: string, dns: string -> DnsAnswer)
    requires ip !in h.names && dns(ip).Failure?
    ensures Resolved(h, ip, dns).names[ip] == Some("unresolved")
  {
  }

  /** Resolving twice is resolving once. */
  lemma ResolvedIdempotent(h: HostMap, ip: string, dns: string -> DnsAnswer)
    ensures Resolved(Resolved(h, ip, dns), ip, dns) == Resolved(h, ip, dns)
  {
  }

  lemma {:induction false} ResolvedAllKeeps(h: HostMap, ips: seq<string>, dns: string -> DnsAnswer)
    requires WellFormed(h)
    ensures WellFormed(ResolvedAll(h, ips, dns))
    ensures forall ip :: ip in h.names ==>
      ip in ResolvedAll(h, ips, dns).names && ResolvedAll(h, ips, dns).names[ip] == h.names[ip]
    decreases |ips|
  {
    if |ips| > 0 {
      ResolvedAllKeeps(h, ips[..|ips| - 1], dns);
      ResolvedEffect(ResolvedAll(h, ips[..|ips| - 1], dns), ips[|ips| - 1], dns);
    }
  }

  /** Resolving one more address keeps the address and name of an earlier one. */
  lemma ResolvedKeepsEarlier(h: HostMap, init: seq<string>, ip: string, i: nat, dns: string -> DnsAnswer)
    requires i < |init|
    requires init[i] in ResolvedAll(h, init, dns).names
    ensures (init + [ip])[..|init|] == init && (init + [ip])[i] == init[i]
    ensures init[i] in ResolvedAll(h, init + [ip], dns).names
    ensures ResolvedAll(h, init + [ip], dns).names[init[i]] == ResolvedAll(h, init, dns).names[init[i]]
  {
    assert (init + [ip])[..|init|] == init;
  }

  lemma {:induction false} ResolvedAllCovers(h: HostMap, ips: seq<string>, dns: string -> DnsAnswer)
    ensures forall i :: 0 <= i < |ips| ==>
      ips[i] in ResolvedAll(h, ips, dns).names
      && ResolvedAll(h, ips, dns).names[ips[i]] == ResolvedAll(h, ips[..i + 1], dns).names[ips[i]]
    decreases |ips|
  {
    if |ips| > 0 {
      var init, ip := ips[..|ips| - 1], ips[|ips| - 1];
      ResolvedAllCovers(h, init, dns);
      assert ips == init + [ip];
      forall i | 0 <= i < |ips|
        ensures ips[i] in ResolvedAll(h, ips, dns).names
        ensures ResolvedAll(h, ips, dns).names[ips[i]] == ResolvedAll(h, ips[..i + 1], dns).names[ips[i]]
      {
        if i < |init| {
          ResolvedKeepsEarlier(h, init, ip, i, dns);
          assert init[..i + 1] == ips[..i + 1];
        } else {
          assert ips[..i + 1] == ips;
        }
      }
    }
  }

  /** An address the map did not have is in it after `resolveIps(ips)` exactly when `ips` lists
      it, and then it holds the last name of its one lookup. */
  lemma {:induction false} ResolvedAllNew(h: HostMap, ips: seq<string>, ip: string, dns: string -> DnsAnswer)
    requires ip !in h.names
    ensures ip in ResolvedAll(h, ips, dns).names <==> ip in ips
    ensures ip in ips ==> ResolvedAll(h, ips, dns).names[ip] == LastName(Reverse(dns(ip)))
    decreases |ips|
  {
    if |ips| > 0 {
      var init, x := ips[..|ips| - 1], ips[|ips| - 1];
      ResolvedAllNew(h, init, ip, dns);
      assert ips == init + [x];
      assert ip in ips <==> ip in init || ip == x;
    }
  }

  /** `resolveIps` keeps every earlier name, adds every requested address, and an address
      it already has keeps the name it had when it was first resolved. */
  lemma ResolvedAllEffect(h: HostMap, ips: seq<string>, dns: string -> DnsAnswer)
    requires WellFormed(h)
    ensures WellFormed(ResolvedAll(h, ips, dns))
    ensures forall ip :: ip in h.names ==>
      ip in ResolvedAll(h, ips, dns).names && ResolvedAll(h, ips, dns).names[ip] == h.names[ip]
    ensures forall i :: 0 <= i < |ips| ==> ips[i] in ResolvedAll(h, ips, dns).names
    ensures forall i :: 0 <= i < |ips| ==>
      ResolvedAll(h, ips, dns).names[ips[i]] == ResolvedAll(h, ips[..i + 1], dns).names[ips[i]]
  {
    ResolvedAllKeeps(h, ips, dns);
    ResolvedAllCovers(h, ips, dns);
  }

  /** No address is sent to the name server twice, and none the map already had. */
  lemma {:induction false} LookedUpOnce(h: HostMap, ips: seq<string>, dns: string -> DnsAnswer)
    requires WellFormed(h)
    ensures Distinct(LookedUp(h, ips, dns))
    ensures forall ip :: ip in LookedUp(h, ips, dns) ==> ip !in h.names && ip in ips
    ensures forall ip :: ip in LookedUp(h, ips, dns) ==> ip in ResolvedAll(h, ips, dns).names
    decreases |ips|
  {
    if |ips| > 0 {
      var init, ip := ips[..|ips| - 1], ips[|ips| - 1];
      LookedUpOnce(h, init, dns);
      ResolvedAllEffect(h, init, dns);
      var before := ResolvedAll(h, init, dns);
      assert forall x :: x in LookedUp(h, init, dns) ==> x in before.names;
      assert forall x :: x in init ==> x in ips;
    }
  }

  lemma PrefixStep(h: HostMap, ips: seq<string>, i: nat, dns: string -> DnsAnswer)
    requires i < |ips|
    ensures ResolvedAll(h, ips[..i + 1], dns) == Resolved(ResolvedAll(h, ips[..i], dns), ips[i], dns)
    ensures LookedUp(h, ips[..i + 1], dns)
         == LookedUp(h, ips[..i], dns) + (if ips[i] in ResolvedAll(h, ips[..i], dns).names then [] else [ips[i]])
  {
    assert ips[..i + 1][..i] == ips[..i];
  }

  /** `results[k]` is the name `ips[k]` has in `h`. */
  ghost predicate Answered(ips: seq<string>, results: seq<Option<string>>, h: HostMap)
  {
    |results| == |ips| && forall k :: 0 <= k < |ips| ==> ips[k] in h.names && results[k] == h.names[ips[k]]
  }

  lemma AnsweredStep(ips: seq<string>, results: seq<Option<string>>, h: HostMap, ip: string, dns: string -> DnsAnswer)
    requires WellFormed(h) && Answered(ips, results, h)
    ensures Answered(ips + [ip], results + [Resolved(h, ip, dns).names[ip]], Resolved(h, ip, dns))
  {
    ResolvedEffect(h, ip, dns);
  }

  /** The fixed inputs of one `resolveIps` call: the map, lookup record and store it
      starts from, the addresses, the store file name and the name server. */
  datatype ResolveRun = ResolveRun(
    start: HostMap, lookups0: seq<string>, store0: StoreFile, ips: seq<string>,
    storeFileName: Option<string>, dns: string -> DnsAnswer)

  /** After `i` turns the map, lookup record and store are those of `resolveIp` on `ips[..i]`. */
  ghost predicate PrefixState(run: ResolveRun, i: nat, hostNames: seq<Option<string>>,
                              h: HostMap, lookups: seq<string>, store: StoreFile)
  {
    && i <= |run.ips|
    && WellFormed(h)
    && h == ResolvedAll(run.start, run.ips[..i], run.dns)
    && Answered(run.ips[..i], hostNames, h)
    && lookups == run.lookups0 + LookedUp(run.start, run.ips[..i], run.dns)
    && (!Truthy(run.storeFileName) || |LookedUp(run.start, run.ips[..i], run.dns)| == 0 ==> store == run.store0)
    && (Truthy(run.storeFileName) && |LookedUp(run.start, run.ips[..i], run.dns)| > 0 ==> store == Pairs(Serialize(h)))
  }

  lemma TakeOneMore(xs: seq<string>, i: nat)
    requires i < |xs|
    ensures xs[..i + 1] == xs[..i] + [xs[i]]
  {
  }

  lemma LookedUpStep(lookups0: seq<string>, start: HostMap, ips: seq<string>, i: nat, dns: string -> DnsAnswer,
                     h: HostMap, lookups: seq<string>, lookups': seq<string>)
    requires i < |ips| && h == ResolvedAll(start, ips[..i], dns)
    requires lookups == lookups0 + LookedUp(start, ips[..i], dns)
    requires ips[i] in h.names ==> lookups' == lookups
    requires ips[i] !in h.names ==> lookups' == lookups + [ips[i]]
    ensures lookups' == lookups0 + LookedUp(start, ips[..i + 1], dns)
    ensures ips[i] in h.names <==> LookedUp(start, ips[..i + 1], dns) == LookedUp(start, ips[..i], dns)
  {
    var before := LookedUp(start, ips[..i], dns);
    PrefixStep(start, ips, i, dns);
    if ips[i] !in h.names {
      assert lookups0 + (before + [ips[i]]) == (lookups0 + before) + [ips[i]];
    }
  }

  lemma AnsweredNext(ips: seq<string>, i: nat, hostNames: seq<Option<string>>, h: HostMap, h': HostMap,
                     name: Option<string>, dns: string -> DnsAnswer)
    requires i < |ips| && WellFormed(h) && Answered(ips[..i], hostNames, h)
    requires h' == Resolved(h, ips[i], dns) && name == h'.names[ips[i]]
    ensures Answered(ips[..i + 1], hostNames + [name], h')
  {
    TakeOneMore(ips, i);
    AnsweredStep(ips[..i], hostNames, h, ips[i], dns);
  }

  /** One `resolveIp(ips[i])`, as its contract describes it, extends the state by one address. */
  lemma PrefixStateStep(run: ResolveRun, i: nat, hostNames: seq<Option<string>>,
                        h: HostMap, lookups: seq<string>, store: StoreFile,
                        name: Option<string>, h': HostMap, lookups': seq<string>, store': StoreFile)
    requires i < |run.ips| && PrefixState(run, i, hostNames, h, lookups, store)
    requires WellFormed(h') && h' == Resolved(h, run.ips[i], run.dns)
    requires run.ips[i] in h'.names && name == h'.names[run.ips[i]]
    requires run.ips[i] in h.names ==> lookups' == lookups && store' == store
    requires run.ips[i] !in h.names ==> lookups' == lookups + [run.ips[i]]
    requires run.ips[i] !in h.names && Truthy(run.storeFileName) ==> store' == Pairs(Serialize(h'))
    requires !Truthy(run.storeFileName) ==> store' == store
    ensures PrefixState(run, i + 1, hostNames + [name], h', lookups', store')
  {
    PrefixStep(run.start, run.ips, i, run.dns);
    AnsweredNext(run.ips, i, hostNames, h, h', name, run.dns);
    LookedUpStep(run.lookups0, run.start, run.ips, i, run.dns, h, lookups, lookups');
  }

  // ---------------------------------------------------------------------------
  // The cache object

  /** The object `ResolveHostNamesByIps` returns, with the closure's map as its state.
      `lookups` records the addresses sent to the name server, `store` the store file. */
  class HostNameCache {
    const storeFileName: Option<string>
    const dns: string -> DnsAnswer
    var order: seq<string>
    var names: map<string, Option<string>>
    var store: StoreFile
    ghost var lookups: seq<string>

    function Contents(): HostMap
      reads this
    {
      HostMap(order, names)
    }

    /** The store, when there is one, holds the map after every change; each address was looked up once. */
    ghost predicate Valid()
      reads this
    {
      && WellFormed(Contents())
      && Distinct(lookups)
      && (forall ip :: ip in lookups ==> ip in names)
    }

    constructor (storeFileName: Option<string>, dns: string -> DnsAnswer, initial: HostMap, store: StoreFile)
      requires WellFormed(initial)
      ensures Valid()
      ensures this.storeFileName == storeFileName && this.dns == dns
      ensures Contents() == initial && this.store == store && lookups == []
    {
      this.storeFileName := storeFileName;
      this.dns := dns;
      order := initial.order;
      names := initial.names;
      this.store := store;
      lookups := [];
    }

    /** `getHostName(ip)`: the stored name, or 'unknown' when the address was never seen
        or its stored name is empty or missing. */
    function GetHostName(ip: string): (r: string)
      reads this
      ensures ip !in names ==> r == "unknown"
      ensures ip in names && Truthy(names[ip]) ==> r == names[ip].value
      ensures ip in names && !Truthy(names[ip]) ==> r == "unknown"
    {
      if ip in names && Truthy(names[ip]) then names[ip].value else "unknown"
    }

    /** What `getHostName(ip)` answers once the cache has resolved `ips` from the map `start`:
        an address `start` had keeps its answer; a newly resolved one answers the last name its
        lookup gave, 'unresolved' for a failed lookup and 'unknown' for one without names; any
        other address is 'unknown'. */
    lemma GetHostNameAfterResolving(start: HostMap, ips: seq<string>, ip: string)
      requires WellFormed(start) && Contents() == ResolvedAll(start, ips, dns)
      ensures ip !in start.names && ip !in ips ==> GetHostName(ip) == "unknown"
      ensures ip !in start.names && ip in ips && dns(ip).Failure? ==> GetHostName(ip) == "unresolved"
      ensures ip !in start.names && ip in ips && dns(ip).Names? && |dns(ip).names| == 0 ==> GetHostName(ip) == "unknown"
      ensures ip !in start.names && ip in ips && dns(ip).Names? && |dns(ip).names| > 0 ==>
        GetHostName(ip) == (if dns(ip).names[|dns(ip).names| - 1] != "" then dns(ip).names[|dns(ip).names| - 1] else "unknown")
      ensures ip in start.names && Truthy(start.names[ip]) ==> GetHostName(ip) == start.names[ip].value
      ensures ip in start.names && !Truthy(start.names[ip]) ==> GetHostName(ip) == "unknown"
    {
      if ip in start.names {
        ResolvedAllKeeps(start, ips, dns);
      } else {
        ResolvedAllNew(start, ips, ip, dns);
      }
    }

    /** `resolveIp(ip)`: look the address up only when it is new, store the last name, write
        the whole map to the store when there is a store file, and return the stored name. */
    method ResolveIp(ip: string) returns (name: Option<string>)
      requires Valid()
      modifies this
      ensures Valid()
      ensures Contents() == Resolved(old(Contents()), ip, dns)
      ensures ip in names && name == names[ip]
      ensures old(ip in names) ==> lookups == old(lookups) && store == old(store)
      ensures !old(ip in names) ==> lookups == old(lookups) + [ip]
      ensures !old(ip in names) && Truthy(storeFileName) ==> store == Pairs(Serialize(Contents()))
      ensures !Truthy(storeFileName) ==> store == old(store)
    {
      var updated := false;
      if ip !in names {
        updated := true;
        var hostNames := Reverse(dns(ip));
        lookups := lookups + [ip];
        order := order + [ip];
        names := names[ip := LastName(hostNames)];
      }
      if updated && Truthy(storeFileName) {
        store := Pairs(Serialize(Contents()));
      }
      name := names[ip];
    }

    /** `resolveIps` has resolved `ips[..i]` starting from the map `start`, the lookup
        record `lookups0` and the store `store0`, answering `hostNames`. */
    ghost predicate ResolvedPrefix(start: HostMap, lookups0: seq<string>, store0: StoreFile,
                                   ips: seq<string>, i: nat, hostNames: seq<Option<string>>)
      reads this
    {
      && Valid()
      && PrefixState(ResolveRun(start, lookups0, store0, ips, storeFileName, dns), i, hostNames, Contents(), lookups, store)
    }

    /** One turn of the loop in `resolveIps`. */
    method ResolveNext(ghost start: HostMap, ghost lookups0: seq<string>, ghost store0: StoreFile,
                       ips: seq<string>, i: nat, hostNames: seq<Option<string>>)
      returns (hostNames': seq<Option<string>>)
      requires i < |ips| && ResolvedPrefix(start, lookups0, store0, ips, i, hostNames)
      modifies this
      ensures ResolvedPrefix(start, lookups0, store0, ips, i + 1, hostNames')
    {
      ghost var run := ResolveRun(start, lookups0, store0, ips, storeFileName, dns);
      ghost var h, lookups1, store1 := Contents(), lookups, store;
      var name := ResolveIp(ips[i]);
      hostNames' := hostNames + [name];
      PrefixStateStep(run, i, hostNames, h, lookups1, store1, name, Contents(), lookups, store);
    }

    /** `resolveIps(ips)`: `resolveIp` on each address in turn; the i-th result is the name
        the i-th address has in the final map, and only new addresses are looked up, once. */
    method ResolveIps(ips: seq<string>) returns (hostNames: seq<Option<string>>)
      requires Valid()
      modifies this
      ensures Valid()
      ensures Contents() == ResolvedAll(old(Contents()), ips, dns)
      ensures |hostNames| == |ips|
      ensures forall i :: 0 <= i < |ips| ==> ips[i] in names && hostNames[i] == names[ips[i]]
      ensures lookups == old(lookups) + LookedUp(old(Contents()), ips, dns)
      ensures !Truthy(storeFileName) ==> store == old(store)
      ensures |LookedUp(old(Contents()), ips, dns)| == 0 ==> store == old(store)
      ensures Truthy(storeFileName) && |LookedUp(old(Contents()), ips, dns)| > 0 ==> store == Pairs(Serialize(Contents()))
    {
      ghost var start, lookups0, store0 := Contents(), lookups, store;
      assert ips[..0] == [];
      hostNames := [];
      var i := 0;
      while i < |ips|
        invariant ResolvedPrefix(start, lookups0, store0, ips, i, hostNames)
      {
        hostNames := ResolveNext(start, lookups0, store0, ips, i, hostNames);
        i := i + 1;
      }
      assert ips[..i] == ips;
    }
  }

  /** `await ResolveHostNamesByIps({storeFileName, dnsServer})`: the map is read from the store
      when a store file name is given (a missing file gives an empty map, an unreadable one
      makes the factory fail), and starts empty otherwise. */
  method Open(storeFileName: Option<string>, dns: string -> DnsAnswer, store: StoreFile)
    returns (cache: Option<HostNameCache>)
    ensures cache.None? <==> Truthy(storeFileName) && store.Unreadable?
    ensures cache.Some? ==> fresh(cache.value) && cache.value.Valid()
    ensures cache.Some? && Truthy(storeFileName) ==> cache.value.Contents() == ReadStore(store).value
    ensures cache.Some? && !Truthy(storeFileName) ==> cache.value.Contents() == EmptyHostMap
    ensures cache.Some? ==> cache.value.store == store && cache.value.lookups == []
  {
    var initial := EmptyHostMap;
    if Truthy(storeFileName) {
      var read := ReadStore(store);
      if read.None? {
        return None;
      }
      initial := read.value;
    }
    var c := new HostNameCache(storeFileName, dns, initial, store);
    cache := Some(c);
  }

  /** What the store tests rely on: a cache re-opened on the file a first cache wrote has the
      first cache's map, so an address it resolved has its name, and one it never saw is 'unknown'. */
  lemma ReopenedStore(h: HostMap)
    requires WellFormed(h)
    ensures ReadStore(Pairs(Serialize(h))) == Some(h)
  {
    StoreRoundTrip(h);
  }
}
