/** Parent and self NS sets: prober/ns_classification.go, and the counts published from them. */
module NsClassification {
  import opened Wrappers
  import opened Text
  import opened Results
  import opened Sequences
  import opened Delegation
  import opened ZoneView
  import ProbeLoop
  import R = Runner

  /** NS hosts an address reports for the zone (none on failure), and the stealth reachability probe. */
  datatype Oracles = Oracles(selfNS: string -> seq<string>, reachable: string -> bool)

  // ----- the two sets -----

  function ParentSet(records: seq<Nameserver>): set<string> {
    set ns <- records :: CanonName(ns.hostname)
  }

  /** The hosts reported by any server that has an address. */
  function SelfSet(o: Oracles, servers: seq<Nameserver>): set<string> {
    set ns <- servers, h <- o.selfNS(ns.ip) | ns.ip != "" :: CanonName(h)
  }

  /** The first address the parent gives a host, or "". */
  function FirstIP(records: seq<Nameserver>, host: string): string {
    if records == [] then ""
    else
      var before, ns := FirstIP(records[..|records| - 1], host), records[|records| - 1];
      if before == "" && CanonName(ns.hostname) == host then ns.ip else before
  }

  ghost predicate IsFirstIPs(ipByHost: map<string, string>, records: seq<Nameserver>) {
    forall h ::
      && (h in ipByHost ==> ipByHost[h] != "")
      && (if h in ipByHost then ipByHost[h] else "") == FirstIP(records, h)
  }

  lemma FirstIPSnoc(records: seq<Nameserver>, ns: Nameserver, h: string)
    ensures FirstIP(records + [ns], h)
         == if FirstIP(records, h) == "" && CanonName(ns.hostname) == h then ns.ip else FirstIP(records, h)
  {
    assert (records + [ns])[..|records|] == records;
  }

  lemma AddFirstIP(ipByHost: map<string, string>, records: seq<Nameserver>, ns: Nameserver)
    requires IsFirstIPs(ipByHost, records)
    ensures
      var key := CanonName(ns.hostname);
      IsFirstIPs(if ns.ip != "" && key !in ipByHost then ipByHost[key := ns.ip] else ipByHost, records + [ns])
  {
    forall h ensures FirstIP(records + [ns], h)
         == if FirstIP(records, h) == "" && CanonName(ns.hostname) == h then ns.ip else FirstIP(records, h) {
      FirstIPSnoc(records, ns, h);
    }
  }

  lemma ParentSetSnoc(records: seq<Nameserver>, ns: Nameserver)
    ensures ParentSet(records + [ns]) == ParentSet(records) + {CanonName(ns.hostname)}
  {
    assert forall x :: x in records + [ns] <==> x in records || x == ns;
  }

  method BuildParent(records: seq<Nameserver>) returns (parents: set<string>, ipByHost: map<string, string>)
    ensures parents == ParentSet(records)
    ensures IsFirstIPs(ipByHost, records)
  {
    parents, ipByHost := {}, map[];
    for i := 0 to |records|
      invariant parents == ParentSet(records[..i])
      invariant IsFirstIPs(ipByHost, records[..i])
    {
      var ns := records[i];
      assert records[..i + 1] == records[..i] + [ns];
      ParentSetSnoc(records[..i], ns);
      AddFirstIP(ipByHost, records[..i], ns);
      var key := CanonName(ns.hostname);
      parents := parents + {key};
      if ns.ip != "" && key !in ipByHost {
        ipByHost := ipByHost[key := ns.ip];
      }
    }
    assert records[..|records|] == records;
  }

  /** `asked` lists the addresses queried; skipping repeats among them loses nothing. */
  method BuildSelf(o: Oracles, servers: seq<Nameserver>) returns (selves: set<string>, ghost asked: seq<string>)
    ensures selves == SelfSet(o, servers)
    ensures NoRepeats(asked) && forall ip :: ip in asked <==> ip != "" && exists ns <- servers :: ns.ip == ip
  {
    selves, asked := {}, [];
    var queried: set<string> := {};
    for i := 0 to |servers|
      invariant selves == SelfSet(o, servers[..i])
      invariant queried == set ns <- servers[..i] | ns.ip != "" :: ns.ip
      invariant NoRepeats(asked) && forall ip :: ip in asked <==> ip in queried
    {
      var ns := servers[i];
      SelfSetSnoc(o, servers[..i], ns);
      assert servers[..i + 1] == servers[..i] + [ns];
      if ns.ip == "" || ns.ip in queried {
        continue;
      }
      queried := queried + {ns.ip};
      asked := asked + [ns.ip];
      var hosts := o.selfNS(ns.ip);
      var reported := CanonSet(hosts);
      selves := selves + reported;
    }
    assert servers[..|servers|] == servers;
  }

  function Reported(o: Oracles, ip: string): set<string> {
    set h <- o.selfNS(ip) :: CanonName(h)
  }

  lemma SelfSetSnoc(o: Oracles, servers: seq<Nameserver>, ns: Nameserver)
    ensures SelfSet(o, servers + [ns]) == SelfSet(o, servers) + if ns.ip == "" then {} else Reported(o, ns.ip)
    ensures ns.ip != "" && (exists x <- servers :: x.ip == ns.ip) ==> Reported(o, ns.ip) <= SelfSet(o, servers)
  {
    assert forall x :: x in servers + [ns] <==> x in servers || x == ns;
  }

  method CanonSet(hosts: seq<string>) returns (s: set<string>)
    ensures s == set h <- hosts :: CanonName(h)
  {
    s := {};
    for i := 0 to |hosts|
      invariant s == set h <- hosts[..i] :: CanonName(h)
    {
      assert hosts[..i + 1] == hosts[..i] + [hosts[i]];
      s := s + {CanonName(hosts[i])};
    }
    assert hosts[..|hosts|] == hosts;
  }

  // ----- the sorted union -----

  ghost predicate StrictlySorted(s: seq<string>) {
    forall i, j :: 0 <= i < j < |s| ==> Less(s[i], s[j])
  }

  method LeastString(s: set<string>) returns (m: string)
    requires s != {}
    ensures m in s && forall x <- s :: x == m || Less(m, x)
  {
    m :| m in s;
    var left := s - {m};
    while left != {}
      invariant left <= s && m in s
      invariant forall x <- s - left :: x == m || Less(m, x)
      decreases left
    {
      var y :| y in left;
      left := left - {y};
      LessIsTotal(m, y);
      if Less(y, m) {
        forall x | x in s - left ensures x == y || Less(y, x) {
          if x != y && x != m {
            LessIsTransitive(y, m, x);
          }
        }
        m := y;
      }
    }
  }

  /** The union in string order; the library sort is replaced by taking least elements. */
  method UnionSorted(a: set<string>, b: set<string>) returns (out: seq<string>)
    ensures StrictlySorted(out)
    ensures forall x :: x in out <==> x in a || x in b
  {
    var left := a + b;
    out := [];
    while left != {}
      invariant left <= a + b
      invariant StrictlySorted(out)
      invariant forall x :: x in out <==> x in a + b - left
      invariant forall x <- out, y <- left :: Less(x, y)
      decreases left
    {
      var m := LeastString(left);
      out := out + [m];
      left := left - {m};
    }
  }

  /** Only one sequence is the sorted union, so nothing depends on map iteration order. */
  lemma {:induction false} SortedUnionIsUnique(s: seq<string>, t: seq<string>)
    requires StrictlySorted(s) && StrictlySorted(t)
    requires forall x :: x in s <==> x in t
    ensures s == t
    decreases |s|
  {
    assert s != [] ==> s[0] in t;
    assert t != [] ==> t[0] in s;
    if s != [] && t != [] {
      assert s[0] in t && t[0] in s;
      var i :| 0 <= i < |t| && t[i] == s[0];
      var j :| 0 <= j < |s| && s[j] == t[0];
      LessIsTotal(s[0], t[0]);
      assert s[0] == t[0];
      forall x ensures x in s[1..] <==> x in t[1..] {
        NotInTail(s, x);
        NotInTail(t, x);
      }
      SortedUnionIsUnique(s[1..], t[1..]);
    }
  }

  lemma NotInTail(s: seq<string>, x: string)
    requires StrictlySorted(s) && s != []
    ensures x in s[1..] <==> x in s && x != s[0]
  {
    LessIsTotal(s[0], s[0]);
    assert s == [s[0]] + s[1..];
  }

  // ----- the prober -----

  function ClassifyHost(host: string, parents: set<string>, selves: set<string>): (c: string)
    ensures host in parents && host in selves <==> c == "both"
    ensures host in parents && host !in selves <==> c == "parent-only"
    ensures host !in parents <==> c == "self-only"
  {
    if host in parents && host in selves then "both"
    else if host in parents then "parent-only"
    else "self-only"
  }

  function HostResult(
    o: Oracles, zone: string, host: string, parents: set<string>, selves: set<string>, ip: string): ProbeResult
  {
    var kind := ClassifyHost(host, parents, selves);
    ProbeResult(
      zone, "ns_classification", host, ip, true, false, 0.0,
      map["ns_classification" := 1.0]
      + if kind == "self-only" then map["ns_stealth_reachable" := if o.reachable(host) then 1.0 else 0.0] else map[],
      map["classification" := kind])
  }

  function HostResults(
    o: Oracles, zone: string, hosts: seq<string>, parents: set<string>, selves: set<string>, records: seq<Nameserver>)
    : seq<ProbeResult>
  {
    if hosts == [] then []
    else
      var host := hosts[|hosts| - 1];
      HostResults(o, zone, hosts[..|hosts| - 1], parents, selves, records)
      + [HostResult(o, zone, host, parents, selves, FirstIP(records, host))]
  }

  ghost predicate IsSortedUnion(hosts: seq<string>, a: set<string>, b: set<string>) {
    StrictlySorted(hosts) && forall h :: h in hosts <==> h in a || h in b
  }

  /** One result per host of the sorted union, in its order. */
  method ProbeNSClassification(o: Oracles, zone: string, records: seq<Nameserver>, servers: seq<Nameserver>)
    returns (results: seq<ProbeResult>)
    ensures exists hosts :: IsSortedUnion(hosts, ParentSet(records), SelfSet(o, servers))
              && results == HostResults(o, zone, hosts, ParentSet(records), SelfSet(o, servers), records)
  {
    var parents, ipByHost := BuildParent(records);
    var selves, _ := BuildSelf(o, servers);
    var union := UnionSorted(parents, selves);
    assert IsSortedUnion(union, parents, selves);
    results := ProbeHosts(o, zone, union, parents, selves, ipByHost, records);
  }

  method ProbeHosts(
    o: Oracles, zone: string, union: seq<string>, parents: set<string>, selves: set<string>,
    ipByHost: map<string, string>, ghost records: seq<Nameserver>)
    returns (results: seq<ProbeResult>)
    requires StrictlySorted(union)
    requires IsFirstIPs(ipByHost, records)
    ensures results == HostResults(o, zone, union, parents, selves, records)
  {
    var checked: set<string> := {};
    results := [];
    for i := 0 to |union|
      invariant results == HostResults(o, zone, union[..i], parents, selves, records)
      invariant forall h <- checked :: h in union[..i]
    {
      var host := union[i];
      assert union[..i + 1][..i] == union[..i];
      NotBefore(union, i);
      var ip := if host in ipByHost then ipByHost[host] else "";
      var r;
      r, checked := ProbeHost(o, zone, host, parents, selves, ip, checked);
      results := results + [r];
    }
    assert union[..|union|] == union;
  }

  lemma NotBefore(s: seq<string>, i: nat)
    requires StrictlySorted(s) && i < |s|
    ensures s[i] !in s[..i]
  {
    LessIsTotal(s[i], s[i]);
  }

  /** One host's result; the reachability probe runs once per self-only host. */
  method ProbeHost(
    o: Oracles, zone: string, host: string, parents: set<string>, selves: set<string>, ip: string, before: set<string>)
    returns (r: ProbeResult, checked: set<string>)
    requires host !in before
    ensures r == HostResult(o, zone, host, parents, selves, ip)
    ensures before <= checked <= before + {host}
  {
    checked := before;
    var kind := ClassifyHost(host, parents, selves);
    var metrics := map["ns_classification" := 1.0];
    if kind == "self-only" && host !in checked {
      checked := checked + {host};
      metrics := metrics["ns_stealth_reachable" := if o.reachable(host) then 1.0 else 0.0];
    }
    r := ProbeResult(zone, "ns_classification", host, ip, true, false, 0.0, metrics, map["classification" := kind]);
  }

  // ----- the published counts -----

  /** The hosts of one class. */
  function OfClass(hosts: seq<string>, parents: set<string>, selves: set<string>, kind: string): set<string> {
    set h <- hosts | ClassifyHost(h, parents, selves) == kind
  }

  lemma {:induction false} HostResultsCount(
    o: Oracles, zone: string, hosts: seq<string>, parents: set<string>, selves: set<string>,
    records: seq<Nameserver>, kind: string)
    requires NoRepeats(hosts)
    ensures R.Count(R.Classification, [zone, kind], HostResults(o, zone, hosts, parents, selves, records))
         == |OfClass(hosts, parents, selves, kind)|
  {
    if hosts == [] {
      assert OfClass(hosts, parents, selves, kind) == {};
    } else {
      var init, host := hosts[..|hosts| - 1], hosts[|hosts| - 1];
      assert hosts == init + [host];
      HostResultsCount(o, zone, init, parents, selves, records, kind);
      var r := HostResult(o, zone, host, parents, selves, FirstIP(records, host));
      CountOfConcat(R.Classification, [zone, kind], HostResults(o, zone, init, parents, selves, records), [r]);
      CountOfOne(R.Classification, [zone, kind], r);
      var c := ClassifyHost(host, parents, selves);
      assert [zone, c] == [zone, kind] <==> [zone, c][1] == [zone, kind][1];
      OfClassSnoc(init, host, parents, selves, kind);
    }
  }

  lemma OfClassSnoc(hosts: seq<string>, host: string, parents: set<string>, selves: set<string>, kind: string)
    requires host !in hosts
    ensures |OfClass(hosts + [host], parents, selves, kind)|
         == |OfClass(hosts, parents, selves, kind)| + if ClassifyHost(host, parents, selves) == kind then 1 else 0
  {
    var before, after := OfClass(hosts, parents, selves, kind), OfClass(hosts + [host], parents, selves, kind);
    assert after == if ClassifyHost(host, parents, selves) == kind then before + {host} else before;
  }

  lemma PartSizes(a: set<string>, b: set<string>)
    ensures |a * b| + |a - b| == |a|
  {
    assert a == (a * b) + (a - b);
  }

  /** What a cycle holds of a zone whose classification probe ran on these inputs. */
  ghost predicate Observed(
    o: Oracles, results: seq<ProbeResult>, zone: string, hosts: seq<string>,
    records: seq<Nameserver>, servers: seq<Nameserver>)
  {
    && IsSortedUnion(hosts, ParentSet(records), SelfSet(o, servers))
    && multiset(Own(results, zone, "ns_classification"))
       == multiset(HostResults(o, zone, hosts, ParentSet(records), SelfSet(o, servers), records))
  }

  /** Every cycle holds that of every configured zone the probe ran for, in whatever order things ran. */
  lemma EveryCycleObserves(
    o: Oracles, outcomes: seq<ProbeLoop.Outcomes>, zones: seq<string>, results: seq<ProbeResult>, k: nat,
    hosts: seq<string>, records: seq<Nameserver>, servers: seq<Nameserver>)
    requires ProbeLoop.Gathers(outcomes, zones, results) && NoRepeats(zones) && k < |zones| && k < |outcomes|
    requires IsSortedUnion(hosts, ParentSet(records), SelfSet(o, servers))
    requires "ns_classification" in outcomes[k]
    requires outcomes[k]["ns_classification"]
          == Success(HostResults(o, zones[k], hosts, ParentSet(records), SelfSet(o, servers), records))
    ensures Observed(o, results, zones[k], hosts, records, servers)
  {
    var batches, run := ProbeLoop.CycleOf(outcomes, zones, results);
    ProbeLoop.CycleKeepsEachCheckWhole(outcomes, zones, batches, run, k, "ns_classification");
  }

  lemma GaugeIsClassSize(
    o: Oracles, g: R.Gauges, zones: seq<string>, results: seq<ProbeResult>, zone: string, hosts: seq<string>,
    records: seq<Nameserver>, servers: seq<Nameserver>, kind: string)
    requires R.Aggregates(g, zones, results) && zone in zones
    requires Observed(o, results, zone, hosts, records, servers)
    requires kind in {"parent-only", "self-only", "both"}
    ensures [zone, kind] in g.classification
    ensures g.classification[[zone, kind]] == |OfClass(hosts, ParentSet(records), SelfSet(o, servers), kind)|
  {
    forall i, j | 0 <= i < j < |hosts| ensures hosts[i] != hosts[j] {
      LessIsTotal(hosts[i], hosts[j]);
    }
    CountIsOwn(R.Classification, [zone, kind], results);
    R.CountIgnoresOrder(R.Classification, [zone, kind], Own(results, zone, "ns_classification"),
                        HostResults(o, zone, hosts, ParentSet(records), SelfSet(o, servers), records));
    HostResultsCount(o, zone, hosts, ParentSet(records), SelfSet(o, servers), records, kind);
    assert [zone, kind] in R.PerClass(zones);
  }

  /**
   * The published class counts are the sizes of the two sets' parts: both and parent-only make up
   * the parent's set, both and self-only the zone's own.
   */
  lemma ClassCountsAreExact(
    o: Oracles, g: R.Gauges, zones: seq<string>, results: seq<ProbeResult>, zone: string, hosts: seq<string>,
    records: seq<Nameserver>, servers: seq<Nameserver>)
    requires R.Aggregates(g, zones, results) && zone in zones
    requires Observed(o, results, zone, hosts, records, servers)
    ensures [zone, "both"] in g.classification && [zone, "parent-only"] in g.classification
         && [zone, "self-only"] in g.classification
    ensures g.classification[[zone, "both"]] + g.classification[[zone, "parent-only"]] == |ParentSet(records)|
    ensures g.classification[[zone, "both"]] + g.classification[[zone, "self-only"]] == |SelfSet(o, servers)|
    ensures g.classification[[zone, "parent-only"]] == g.classification[[zone, "self-only"]] == 0
       <==> ParentSet(records) == SelfSet(o, servers)
  {
    var p, s := ParentSet(records), SelfSet(o, servers);
    GaugeIsClassSize(o, g, zones, results, zone, hosts, records, servers, "both");
    GaugeIsClassSize(o, g, zones, results, zone, hosts, records, servers, "parent-only");
    GaugeIsClassSize(o, g, zones, results, zone, hosts, records, servers, "self-only");
    ClassSizes(hosts, p, s);
  }

  lemma ClassSizes(hosts: seq<string>, p: set<string>, s: set<string>)
    requires forall h :: h in hosts <==> h in p || h in s
    ensures |OfClass(hosts, p, s, "both")| + |OfClass(hosts, p, s, "parent-only")| == |p|
    ensures |OfClass(hosts, p, s, "both")| + |OfClass(hosts, p, s, "self-only")| == |s|
    ensures |OfClass(hosts, p, s, "parent-only")| == |OfClass(hosts, p, s, "self-only")| == 0 <==> p == s
  {
    assert OfClass(hosts, p, s, "both") == p * s;
    assert p * s == s * p;
    assert OfClass(hosts, p, s, "parent-only") == p - s;
    assert OfClass(hosts, p, s, "self-only") == s - p;
    PartSizes(p, s);
    PartSizes(s, p);
    assert p == s <==> p - s == {} && s - p == {};
  }
}
