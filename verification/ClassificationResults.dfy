/** What the classification prober returns, in terms of what it was told: prober/ns_classification.go. */
module ClassificationResults {
  import opened Results
  import opened Delegation
  import opened NsClassification

  /** The parent's records name the host, up to letter case and the final dot. */
  ghost predicate ParentNames(records: seq<Nameserver>, host: string) {
    exists i :: 0 <= i < |records| && CanonName(records[i].hostname) == host
  }

  /** Some server that has an address reports the host. */
  ghost predicate ZoneNames(o: Oracles, servers: seq<Nameserver>, host: string) {
    exists i :: 0 <= i < |servers| && Reports(o, servers[i], host)
  }

  ghost predicate Reports(o: Oracles, server: Nameserver, host: string) {
    server.ip != "" && exists h :: h in o.selfNS(server.ip) && CanonName(h) == host
  }

  lemma SetsMean(o: Oracles, records: seq<Nameserver>, servers: seq<Nameserver>, host: string)
    ensures host in ParentSet(records) <==> ParentNames(records, host)
    ensures host in SelfSet(o, servers) <==> ZoneNames(o, servers, host)
  {
    if host in ParentSet(records) {
      var ns :| ns in records && CanonName(ns.hostname) == host;
      var i :| 0 <= i < |records| && records[i] == ns;
      assert CanonName(records[i].hostname) == host;
    }
    if host in SelfSet(o, servers) {
      var ns, h :| ns in servers && h in o.selfNS(ns.ip) && ns.ip != "" && CanonName(h) == host;
      var i :| 0 <= i < |servers| && servers[i] == ns;
      assert Reports(o, servers[i], host);
    }
    if i :| 0 <= i < |servers| && Reports(o, servers[i], host) {
      assert servers[i] in servers;
    }
  }

  /** A record that gives the host an address. */
  ghost predicate Addresses(ns: Nameserver, host: string) {
    CanonName(ns.hostname) == host && ns.ip != ""
  }

  ghost predicate IsFirstAt(records: seq<Nameserver>, host: string, k: nat) {
    k < |records| && Addresses(records[k], host) && forall j :: 0 <= j < k ==> !Addresses(records[j], host)
  }

  /** The address of the first record that gives the host one, or "" if none does. */
  ghost predicate IsFirstAddress(records: seq<Nameserver>, host: string, ip: string) {
    || (exists k: nat :: IsFirstAt(records, host, k) && records[k].ip == ip)
    || (ip == "" && forall j :: 0 <= j < |records| ==> !Addresses(records[j], host))
  }

  lemma {:induction false} FirstIPIsFirst(records: seq<Nameserver>, host: string)
    ensures IsFirstAddress(records, host, FirstIP(records, host))
  {
    if records != [] {
      var init, ns := records[..|records| - 1], records[|records| - 1];
      FirstIPIsFirst(init, host);
      FirstAddressSnoc(init, ns, host, FirstIP(init, host));
      assert records == init + [ns];
      FirstIPSnoc(init, ns, host);
    }
  }

  lemma FirstAddressSnoc(records: seq<Nameserver>, ns: Nameserver, host: string, ip: string)
    requires IsFirstAddress(records, host, ip)
    ensures IsFirstAddress(records + [ns], host, if ip == "" && CanonName(ns.hostname) == host then ns.ip else ip)
  {
    var all := records + [ns];
    assert forall j :: 0 <= j < |records| ==> all[j] == records[j];
    if k: nat :| IsFirstAt(records, host, k) && records[k].ip == ip {
      assert IsFirstAt(all, host, k) && all[k].ip == ip;
    } else if Addresses(ns, host) {
      assert IsFirstAt(all, host, |records|);
    }
  }

  /** The class of a host that the parent names or does not, and the zone reports or does not. */
  function ClassOf(named: bool, reported: bool): string {
    if !named then "self-only" else if reported then "both" else "parent-only"
  }

  ghost predicate HasFields(
    r: ProbeResult, zone: string, host: string, named: bool, reported: bool, reached: bool)
  {
    && r.zone == zone && r.check == "ns_classification" && r.nameserver == host && r.success && !r.timedOut
    && r.labels == map["classification" := ClassOf(named, reported)]
    && r.metrics ==
         if named then map["ns_classification" := 1.0]
         else map["ns_classification" := 1.0, "ns_stealth_reachable" := if reached then 1.0 else 0.0]
  }

  /**
   * What is said of one host: where it is named, its address at the parent, and, if the parent does
   * not name it, whether it was reached.
   */
  ghost predicate IsResultOf(
    r: ProbeResult, o: Oracles, zone: string, host: string, records: seq<Nameserver>, servers: seq<Nameserver>)
  {
    && HasFields(r, zone, host, ParentNames(records, host), ZoneNames(o, servers, host), o.reachable(host))
    && IsFirstAddress(records, host, r.ip)
  }

  lemma ClassifyMeans(host: string, parents: set<string>, selves: set<string>)
    ensures ClassifyHost(host, parents, selves) == ClassOf(host in parents, host in selves)
    ensures ClassifyHost(host, parents, selves) == "self-only" <==> host !in parents
  {
    assert |"both"| != |"self-only"| && |"parent-only"| != |"self-only"|;
  }

  lemma FieldsOfHostResult(
    o: Oracles, zone: string, host: string, parents: set<string>, selves: set<string>, ip: string)
    ensures
      var r := HostResult(o, zone, host, parents, selves, ip);
      HasFields(r, zone, host, host in parents, host in selves, o.reachable(host)) && r.ip == ip
  {
    ClassifyMeans(host, parents, selves);
    var metrics: map<string, real> := map["ns_classification" := 1.0];
    assert metrics + map[] == metrics;
    var reached := if o.reachable(host) then 1.0 else 0.0;
    assert metrics + map["ns_stealth_reachable" := reached]
        == map["ns_classification" := 1.0, "ns_stealth_reachable" := reached];
  }

  lemma HostResultMeans(
    o: Oracles, zone: string, host: string, records: seq<Nameserver>, servers: seq<Nameserver>)
    ensures IsResultOf(
      HostResult(o, zone, host, ParentSet(records), SelfSet(o, servers), FirstIP(records, host)),
      o, zone, host, records, servers)
  {
    SetsMean(o, records, servers, host);
    FirstIPIsFirst(records, host);
    FieldsOfHostResult(o, zone, host, ParentSet(records), SelfSet(o, servers), FirstIP(records, host));
  }

  /**
   * The whole probe: its results are about exactly the hosts that parent or zone name, one each, in
   * order, and each says of its host just this.
   */
  lemma {:induction false} HostResultsMean(
    o: Oracles, zone: string, hosts: seq<string>, records: seq<Nameserver>, servers: seq<Nameserver>)
    ensures
      var results := HostResults(o, zone, hosts, ParentSet(records), SelfSet(o, servers), records);
      && |results| == |hosts|
      && forall i :: 0 <= i < |hosts| ==> IsResultOf(results[i], o, zone, hosts[i], records, servers)
  {
    if hosts != [] {
      var init, host := hosts[..|hosts| - 1], hosts[|hosts| - 1];
      HostResultsMean(o, zone, init, records, servers);
      HostResultMeans(o, zone, host, records, servers);
    }
  }

  lemma ProbeMeans(
    o: Oracles, zone: string, hosts: seq<string>, records: seq<Nameserver>, servers: seq<Nameserver>,
    results: seq<ProbeResult>)
    requires IsSortedUnion(hosts, ParentSet(records), SelfSet(o, servers))
    requires results == HostResults(o, zone, hosts, ParentSet(records), SelfSet(o, servers), records)
    ensures StrictlySorted(hosts)
    ensures forall h :: h in hosts <==> ParentNames(records, h) || ZoneNames(o, servers, h)
    ensures |results| == |hosts|
    ensures forall i :: 0 <= i < |hosts| ==> IsResultOf(results[i], o, zone, hosts[i], records, servers)
  {
    HostResultsMean(o, zone, hosts, records, servers);
    forall h ensures h in hosts <==> ParentNames(records, h) || ZoneNames(o, servers, h) {
      SetsMean(o, records, servers, h);
    }
  }
}
