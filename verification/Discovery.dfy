/** Nameserver discovery from a delegation: cycle/runner.go, `probeZone` and its helpers. */
module Discovery {
  import opened Wrappers
  import opened Delegation
  import opened Sequences

  /** `isIPv6` (which asks the net package), and `ResolveHostnames`, as oracles. */
  datatype Oracles = Oracles(isIPv6: string -> bool, resolve: string -> Result<seq<string>>)

  /** What the seen-set stores for a nameserver. */
  function Key(ns: Nameserver): string {
    ns.hostname + ":" + ns.ip
  }

  function Keys(list: seq<Nameserver>): set<string> {
    set ns <- list :: Key(ns)
  }

  ghost predicate DistinctKeys(list: seq<Nameserver>) {
    forall i, j :: 0 <= i < j < |list| ==> Key(list[i]) != Key(list[j])
  }

  // ----- parent glue -----

  /** The glued records, each key at its first record only. */
  function FirstByKey(records: seq<Nameserver>): seq<Nameserver> {
    if records == [] then []
    else
      var init, last := FirstByKey(records[..|records| - 1]), records[|records| - 1];
      if last.ip == "" || Key(last) in Keys(init) then init else init + [last]
  }

  method BuildInitialNameservers(records: seq<Nameserver>) returns (list: seq<Nameserver>, seen: set<string>)
    ensures list == FirstByKey(records) && seen == Keys(list)
  {
    list, seen := [], {};
    for i := 0 to |records|
      invariant list == FirstByKey(records[..i]) && seen == Keys(list)
    {
      assert records[..i + 1][..i] == records[..i];
      var ns := records[i];
      if ns.ip == "" || Key(ns) in seen {
        continue;
      }
      assert Keys(list + [ns]) == Keys(list) + {Key(ns)};
      seen := seen + {Key(ns)};
      list := list + [ns];
    }
    assert records[..|records|] == records;
  }

  lemma {:induction false} FirstByKeyIsExact(records: seq<Nameserver>)
    ensures DistinctKeys(FirstByKey(records))
    ensures forall ns <- FirstByKey(records) :: ns in records && ns.ip != ""
    ensures forall ns <- records :: ns.ip != "" ==> Key(ns) in Keys(FirstByKey(records))
  {
    if records != [] {
      var init, last := records[..|records| - 1], records[|records| - 1];
      assert records == init + [last];
      FirstByKeyIsExact(init);
    }
  }

  /** A glued record whose key no glued record before it has. */
  ghost predicate IsFirstOfKey(records: seq<Nameserver>, k: nat) {
    && k < |records| && records[k].ip != ""
    && forall j :: 0 <= j < k && records[j].ip != "" ==> Key(records[j]) != Key(records[k])
  }

  /** They are kept in the order of the records, so a server listed first is asked first. */
  lemma {:induction false} FirstByKeyAt(records: seq<Nameserver>) returns (at: seq<nat>)
    ensures Increasing(at) && forall k: nat :: k in at <==> IsFirstOfKey(records, k)
    ensures |FirstByKey(records)| == |at|
    ensures forall i :: 0 <= i < |at| ==> at[i] < |records| && FirstByKey(records)[i] == records[at[i]]
  {
    at := [];
    if records != [] {
      var init, last := records[..|records| - 1], records[|records| - 1];
      at := FirstByKeyAt(init);
      FirstByKeyIsExact(init);
      KeyIsKnown(init, last);
      assert forall k: nat :: k < |init| ==> (IsFirstOfKey(records, k) <==> IsFirstOfKey(init, k));
      if last.ip != "" && Key(last) !in Keys(FirstByKey(init)) {
        IncreasingSnoc(at, |init|);
        at := at + [|init|];
      }
    }
  }

  lemma KeyIsKnown(records: seq<Nameserver>, ns: Nameserver)
    ensures Key(ns) in Keys(FirstByKey(records)) <==>
              exists j :: 0 <= j < |records| && records[j].ip != "" && Key(records[j]) == Key(ns)
  {
    FirstByKeyIsExact(records);
    if Key(ns) in Keys(FirstByKey(records)) {
      var x :| x in FirstByKey(records) && Key(x) == Key(ns);
      var j :| 0 <= j < |records| && records[j] == x;
      assert records[j].ip != "";
    }
    if j :| 0 <= j < |records| && records[j].ip != "" && Key(records[j]) == Key(ns) {
      assert records[j] in records;
    }
  }

  /** No two glued records are told apart by their fields but not by their keys. */
  ghost predicate KeysDistinguish(records: seq<Nameserver>) {
    forall a, b :: a in records && b in records && a.ip != "" && b.ip != "" && Key(a) == Key(b) ==> a == b
  }

  /** All parent glue survives the seen-set exactly when the keys tell the records apart. */
  lemma GlueIsKeptIff(records: seq<Nameserver>)
    ensures (forall ns <- records :: ns.ip != "" ==> ns in FirstByKey(records)) <==> KeysDistinguish(records)
  {
    FirstByKeyIsExact(records);
    var list := FirstByKey(records);
    if forall ns <- records :: ns.ip != "" ==> ns in list {
      forall a, b | a in records && b in records && a.ip != "" && b.ip != "" && Key(a) == Key(b) ensures a == b {
        var i :| 0 <= i < |list| && list[i] == a;
        var j :| 0 <= j < |list| && list[j] == b;
      }
    }
  }

  /** As every host name read from a message ends. */
  predicate Absolute(host: string) {
    host != [] && host[|host| - 1] == '.'
  }

  /** The two characters a key has between an absolute host name and an address. */
  predicate JoinAt(s: string, i: nat) {
    i + 1 < |s| && s[i] == '.' && s[i + 1] == ':'
  }

  /** As every printed address reads, IPv6 with a dotted tail included; the sentinel "" as well. */
  ghost predicate PlainAddress(ip: string) {
    forall i: nat :: !JoinAt(ip, i)
  }

  ghost predicate Receivable(ns: Nameserver) {
    Absolute(ns.hostname) && PlainAddress(ns.ip)
  }

  /** The host name ends where the key's last join is, however many colons either part has. */
  lemma HostEndsAtJoin(a: Nameserver, b: Nameserver)
    requires Receivable(a) && Receivable(b) && Key(a) == Key(b)
    ensures |b.hostname| <= |a.hostname|
  {
    var key, n, m := Key(a), |a.hostname|, |b.hostname|;
    if n < m {
      assert key[m - 1] == b.hostname[m - 1] == '.' && key[m] == (b.hostname + ":")[m] == ':';
      assert key[n] == (a.hostname + ":")[n] == ':';
      assert n + 1 <= m - 1;
      assert a.ip[m - 1 - (n + 1)] == key[m - 1] && a.ip[m - (n + 1)] == key[m];
      assert JoinAt(a.ip, m - 1 - (n + 1));
    }
  }

  /** The key determines the pair for everything that can be received. */
  lemma KeyIsInjective(a: Nameserver, b: Nameserver)
    requires Receivable(a) && Receivable(b) && Key(a) == Key(b)
    ensures a == b
  {
    HostEndsAtJoin(a, b);
    HostEndsAtJoin(b, a);
    var n := |a.hostname|;
    assert Key(a)[..n] == a.hostname && Key(b)[..n] == b.hostname;
    assert Key(a)[n + 1..] == a.ip && Key(b)[n + 1..] == b.ip;
  }

  /** So the seen-set drops repeated pairs only, and all parent glue is kept. */
  lemma AllGlueIsKept(records: seq<Nameserver>)
    requires forall ns <- records :: Receivable(ns)
    ensures forall ns <- records :: ns.ip != "" ==> ns in FirstByKey(records)
    ensures NoRepeats(FirstByKey(records))
  {
    forall a, b | a in records && b in records && a.ip != "" && b.ip != "" && Key(a) == Key(b) ensures a == b {
      KeyIsInjective(a, b);
    }
    GlueIsKeptIff(records);
    FirstByKeyIsExact(records);
  }

  // ----- missing families -----

  ghost predicate Covers(o: Oracles, records: seq<Nameserver>, host: string, v6: bool) {
    exists ns <- records :: ns.hostname == host && ns.ip != "" && o.isIPv6(ns.ip) == v6
  }

  ghost predicate Listed(records: seq<Nameserver>, host: string) {
    exists ns <- records :: ns.hostname == host
  }

  /** A listed host with no glue for some family. */
  ghost predicate NeedsAugmentation(o: Oracles, records: seq<Nameserver>, host: string) {
    Listed(records, host) && !(Covers(o, records, host, false) && Covers(o, records, host, true))
  }

  /** For one of the families, none of the host's records has an address. */
  ghost predicate LacksFamily(o: Oracles, records: seq<Nameserver>, host: string) {
    && (exists ns <- records :: ns.hostname == host)
    && exists v6: bool :: NoneOf(o, records, host, v6)
  }

  ghost predicate NoneOf(o: Oracles, records: seq<Nameserver>, host: string, v6: bool) {
    forall ns <- records :: ns.hostname == host && ns.ip != "" ==> o.isIPv6(ns.ip) != v6
  }

  lemma NeedsAugmentationIff(o: Oracles, records: seq<Nameserver>, host: string)
    ensures NeedsAugmentation(o, records, host) <==> LacksFamily(o, records, host)
  {
    assert NoneOf(o, records, host, false) <==> !Covers(o, records, host, false);
    assert NoneOf(o, records, host, true) <==> !Covers(o, records, host, true);
  }

  datatype Families = Families(v4: bool, v6: bool)

  ghost predicate IsFamilies(o: Oracles, families: map<string, Families>, records: seq<Nameserver>) {
    && (forall h :: h in families <==> Listed(records, h))
    && (forall h :: h in families ==>
          (families[h].v4 <==> Covers(o, records, h, false)) && (families[h].v6 <==> Covers(o, records, h, true)))
  }

  lemma CoversSnoc(o: Oracles, records: seq<Nameserver>, ns: Nameserver, host: string, v6: bool)
    ensures Covers(o, records + [ns], host, v6)
       <==> Covers(o, records, host, v6) || (ns.hostname == host && ns.ip != "" && o.isIPv6(ns.ip) == v6)
    ensures Listed(records + [ns], host) <==> Listed(records, host) || ns.hostname == host
  {
    assert forall x :: x in records + [ns] <==> x in records || x == ns;
  }

  method CollectFamilies(o: Oracles, records: seq<Nameserver>) returns (families: map<string, Families>)
    ensures IsFamilies(o, families, records)
  {
    families := map[];
    for i := 0 to |records|
      invariant IsFamilies(o, families, records[..i])
    {
      var ns := records[i];
      assert records[..i + 1] == records[..i] + [ns];
      forall h, v6 ensures Covers(o, records[..i] + [ns], h, v6)
         <==> Covers(o, records[..i], h, v6) || (ns.hostname == h && ns.ip != "" && o.isIPv6(ns.ip) == v6) {
        CoversSnoc(o, records[..i], ns, h, v6);
      }
      forall h ensures Listed(records[..i] + [ns], h) <==> Listed(records[..i], h) || ns.hostname == h {
        CoversSnoc(o, records[..i], ns, h, true);
      }
      var f := if ns.hostname in families then families[ns.hostname] else Families(false, false);
      if ns.hostname !in families {
        assert !Listed(records[..i], ns.hostname);
      }
      if ns.ip != "" {
        f := if o.isIPv6(ns.ip) then f.(v6 := true) else f.(v4 := true);
      }
      families := families[ns.hostname := f];
    }
    assert records[..|records|] == records;
  }

  /** In Go the result comes in map order: any order. */
  method HostsNeedingAugmentation(o: Oracles, records: seq<Nameserver>) returns (out: seq<string>)
    ensures NoRepeats(out)
    ensures forall h :: h in out <==> NeedsAugmentation(o, records, h)
  {
    var families := CollectFamilies(o, records);
    out := [];
    var left := families.Keys;
    while left != {}
      invariant left <= families.Keys && NoRepeats(out)
      invariant forall h :: h in out <==> h in families.Keys - left && !(families[h].v4 && families[h].v6)
      decreases left
    {
      var host :| host in left;
      left := left - {host};
      var f := families[host];
      if !f.v4 || !f.v6 {
        out := out + [host];
      }
    }
  }

  // ----- the whole list -----

  /** What discovery is after: parent glue, and every address resolved for a host missing a family. */
  ghost predicate Wanted(o: Oracles, records: seq<Nameserver>, ns: Nameserver) {
    || (ns.ip != "" && ns in records)
    || (NeedsAugmentation(o, records, ns.hostname)
        && o.resolve(ns.hostname).Success?
        && ns.ip in o.resolve(ns.hostname).value)
  }

  /** `asked` is the sequence of hosts resolved out-of-band. */
  method DiscoverNameservers(o: Oracles, records: seq<Nameserver>)
    returns (list: seq<Nameserver>, ghost asked: seq<string>)
    ensures FirstByKey(records) <= list && DistinctKeys(list)
    ensures forall ns <- list :: Wanted(o, records, ns)
    ensures forall ns :: Wanted(o, records, ns) ==> Key(ns) in Keys(list)
    ensures NoRepeats(asked) && forall h :: h in asked <==> NeedsAugmentation(o, records, h)
  {
    var seen;
    list, seen := BuildInitialNameservers(records);
    FirstByKeyIsExact(records);
    var hosts := HostsNeedingAugmentation(o, records);
    asked := hosts;
    for i := 0 to |hosts|
      invariant FirstByKey(records) <= list && DistinctKeys(list) && seen == Keys(list)
      invariant forall ns <- list :: Wanted(o, records, ns)
      invariant forall h <- hosts[..i] :: o.resolve(h).Success? ==>
                  forall ip <- o.resolve(h).value :: Key(Nameserver(h, ip)) in seen
    {
      var host := hosts[i];
      assert host in hosts && hosts[..i + 1] == hosts[..i] + [host];
      var ips := o.resolve(host);
      if ips.Success? {
        list, seen := AddAddresses(list, seen, host, ips.value);
      }
    }
    assert hosts[..|hosts|] == hosts;
  }

  method AddAddresses(list0: seq<Nameserver>, seen0: set<string>, host: string, ips: seq<string>)
    returns (list: seq<Nameserver>, seen: set<string>)
    requires seen0 == Keys(list0) && DistinctKeys(list0)
    ensures list0 <= list && seen0 <= seen && seen == Keys(list) && DistinctKeys(list)
    ensures forall ns <- list :: ns in list0 || (ns.hostname == host && ns.ip in ips)
    ensures forall ip <- ips :: Key(Nameserver(host, ip)) in seen
  {
    list, seen := list0, seen0;
    for i := 0 to |ips|
      invariant list0 <= list && seen0 <= seen && seen == Keys(list) && DistinctKeys(list)
      invariant forall ns <- list :: ns in list0 || (ns.hostname == host && ns.ip in ips)
      invariant forall j :: 0 <= j < i ==> Key(Nameserver(host, ips[j])) in seen
    {
      var ns := Nameserver(host, ips[i]);
      if Key(ns) !in seen {
        assert Keys(list + [ns]) == Keys(list) + {Key(ns)};
        seen := seen + {Key(ns)};
        list := list + [ns];
      }
    }
  }

  /** Resolution yields printed addresses. */
  ghost predicate YieldsAddresses(o: Oracles) {
    forall h :: o.resolve(h).Success? ==> forall ip <- o.resolve(h).value :: PlainAddress(ip)
  }

  /**
   * The discovered list has no repeated (host, IP) pair and is, as a set, exactly what is wanted;
   * so every map iteration order discovers the same set.
   */
  lemma DiscoveryIsExact(o: Oracles, records: seq<Nameserver>, list: seq<Nameserver>)
    requires YieldsAddresses(o) && forall ns <- records :: Receivable(ns)
    requires DistinctKeys(list) && forall ns <- list :: Wanted(o, records, ns)
    requires forall ns :: Wanted(o, records, ns) ==> Key(ns) in Keys(list)
    ensures NoRepeats(list)
    ensures forall ns :: ns in list <==>
              || (ns in records && ns.ip != "")
              || (LacksFamily(o, records, ns.hostname) && o.resolve(ns.hostname).Success?
                  && ns.ip in o.resolve(ns.hostname).value)
  {
    forall h ensures NeedsAugmentation(o, records, h) <==> LacksFamily(o, records, h) {
      NeedsAugmentationIff(o, records, h);
    }
    forall ns | Wanted(o, records, ns) ensures ns in list {
      var other :| other in list && Key(other) == Key(ns);
      WantedIsReceivable(o, records, ns);
      WantedIsReceivable(o, records, other);
      KeyIsInjective(ns, other);
    }
  }

  lemma WantedIsReceivable(o: Oracles, records: seq<Nameserver>, ns: Nameserver)
    requires YieldsAddresses(o) && (forall x <- records :: Receivable(x)) && Wanted(o, records, ns)
    ensures Receivable(ns)
  {
    if ns !in records {
      var listed :| listed in records && listed.hostname == ns.hostname;
      assert Receivable(listed);
    }
  }
}
