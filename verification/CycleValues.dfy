/** What a cycle publishes and counts, in terms of the fields of its results: cycle/runner.go. */
module CycleValues {
  import opened Wrappers
  import opened Results
  import opened Sequences
  import opened Runner

  /** Where the results are that a series counts. */
  lemma {:induction false} CountedAt(kind: Kind, labels: seq<string>, results: seq<ProbeResult>) returns (at: seq<nat>)
    ensures Increasing(at)
    ensures forall k: nat :: k in at <==> k < |results| && LabelsOf(kind, results[k]) == Some(labels)
    ensures |at| == Count(kind, labels, results)
  {
    at := [];
    if results != [] {
      var init := results[..|results| - 1];
      at := CountedAt(kind, labels, init);
      if LabelsOf(kind, results[|init|]) == Some(labels) {
        IncreasingSnoc(at, |init|);
        at := at + [|init|];
      }
    }
  }

  lemma CountIsSize(kind: Kind, labels: seq<string>, results: seq<ProbeResult>, positions: set<nat>)
    requires forall k: nat :: k in positions <==> k < |results| && LabelsOf(kind, results[k]) == Some(labels)
    ensures Count(kind, labels, results) == |positions|
  {
    var at := CountedAt(kind, labels, results);
    SizeOfPositions(at, positions);
  }

  // ----- gauges -----

  /** A result that says the zone has an MX record. */
  predicate TellsRecord(r: ProbeResult, zone: string) {
    r.zone == zone && r.check == "mx" && "mx_info" in r.metrics
  }

  /** Its preference, if the label can be read. */
  function PreferenceOf(r: ProbeResult): Option<nat> {
    if "priority" in r.labels then Priority.Parse(r.labels["priority"]) else None
  }

  /** A metric of a zone's MX result is 1; what cannot be read as a record is passed over. */
  predicate TellsOne(r: ProbeResult, zone: string, metric: string) {
    && r.zone == zone && r.check == "mx" && metric in r.metrics && r.metrics[metric] == 1.0
    && ("mx_info" in r.metrics ==> PreferenceOf(r).Some?)
  }

  predicate TellsClass(r: ProbeResult, zone: string, kind: string) {
    && r.zone == zone && r.check == "ns_classification"
    && "classification" in r.labels && r.labels["classification"] == kind
  }

  lemma OneLabel(a: string, b: string)
    ensures [a] == [b] <==> a == b
  {
    assert [a][0] == a && [b][0] == b;
  }

  lemma TwoLabels(a: string, b: string, c: string, d: string)
    ensures [a, b] == [c, d] <==> a == c && b == d
  {
    assert [a, b][0] == a && [a, b][1] == b && [c, d][0] == c && [c, d][1] == d;
  }

  /** The counted gauges: how many results tell what each of them counts. */
  lemma GaugesByFields(g: Gauges, zones: seq<string>, results: seq<ProbeResult>, zone: string)
    requires Aggregates(g, zones, results)
    ensures ValueAt(g.mxCount, [zone]) == |set k: nat | k < |results| && TellsRecord(results[k], zone)|
    ensures ValueAt(g.mxResolved, [zone]) == |set k: nat | k < |results| && TellsOne(results[k], zone, "mx_resolves")|
    ensures ValueAt(g.mxCname, [zone]) == |set k: nat | k < |results| && TellsOne(results[k], zone, "mx_is_cname")|
    ensures ValueAt(g.mxSyntaxValid, [zone])
         == |set k: nat | k < |results| && TellsOne(results[k], zone, "mx_syntax_valid")|
    ensures zone in zones ==>
              [zone] in g.mxCount && [zone] in g.mxResolved && [zone] in g.mxCname && [zone] in g.mxSyntaxValid
  {
    RecordGauge(g.mxCount, zones, results, zone);
    ValidityGauge(g.mxResolved, MXResolved, "mx_resolves", zones, results, zone);
    ValidityGauge(g.mxCname, MXCname, "mx_is_cname", zones, results, zone);
    ValidityGauge(g.mxSyntaxValid, MXSyntaxValid, "mx_syntax_valid", zones, results, zone);
  }

  lemma RecordGauge(v: Vector, zones: seq<string>, results: seq<ProbeResult>, zone: string)
    requires Counts(v, MXCount, PerZone(zones), results)
    ensures ValueAt(v, [zone]) == |set k: nat | k < |results| && TellsRecord(results[k], zone)|
    ensures zone in zones ==> [zone] in v
  {
    forall z: string ensures [z] == [zone] <==> z == zone {
      OneLabel(z, zone);
    }
    CountIsSize(MXCount, [zone], results, set k: nat | k < |results| && TellsRecord(results[k], zone));
    assert zone in zones ==> [zone] in PerZone(zones);
  }

  predicate IsMetricOf(kind: Kind, metric: string) {
    || (kind == MXResolved && metric == "mx_resolves")
    || (kind == MXCname && metric == "mx_is_cname")
    || (kind == MXSyntaxValid && metric == "mx_syntax_valid")
  }

  lemma ValidityGauge(
    v: Vector, kind: Kind, metric: string, zones: seq<string>, results: seq<ProbeResult>, zone: string)
    requires IsMetricOf(kind, metric) && Counts(v, kind, PerZone(zones), results)
    ensures ValueAt(v, [zone]) == |set k: nat | k < |results| && TellsOne(results[k], zone, metric)|
    ensures zone in zones ==> [zone] in v
  {
    var told := set k: nat | k < |results| && TellsOne(results[k], zone, metric);
    forall k: nat ensures k in told <==> k < |results| && LabelsOf(kind, results[k]) == Some([zone]) {
      if k < |results| {
        OneLabel(results[k].zone, zone);
      }
    }
    CountIsSize(kind, [zone], results, told);
    assert zone in zones ==> [zone] in PerZone(zones);
  }

  lemma ClassesByFields(g: Gauges, zones: seq<string>, results: seq<ProbeResult>, zone: string, kind: string)
    requires Aggregates(g, zones, results)
    ensures ValueAt(g.classification, [zone, kind])
         == |set k: nat | k < |results| && TellsClass(results[k], zone, kind)|
    ensures zone in zones && kind in {"parent-only", "self-only", "both"} ==> [zone, kind] in g.classification
  {
    forall z, c: string ensures [z, c] == [zone, kind] <==> z == zone && c == kind {
      TwoLabels(z, c, zone, kind);
    }
    CountIsSize(
      Classification, [zone, kind], results, set k: nat | k < |results| && TellsClass(results[k], zone, kind));
    assert zone in zones && kind in {"parent-only", "self-only", "both"} ==> [zone, kind] in PerClass(zones);
  }

  /** A record the cycle knows of is one some result tells, with its target label and its preference. */
  lemma RecordsByFields(results: seq<ProbeResult>, zone: string, target: string, preference: nat)
    ensures HasRecord(results, MXRecord(zone, target, preference)) <==>
              exists r <- results ::
                && TellsRecord(r, zone) && PreferenceOf(r) == Some(preference)
                && target == if "target" in r.labels then r.labels["target"] else ""
  {
    forall r | r in results
      ensures RecordOf(r) == Some(MXRecord(zone, target, preference)) <==>
                && TellsRecord(r, zone) && PreferenceOf(r) == Some(preference)
                && target == if "target" in r.labels then r.labels["target"] else ""
    {
    }
  }

  /** The null-MX gauges: whether some result tells the record "0 ."; and whether it is the only one told. */
  lemma NullMXByFields(g: Gauges, zones: seq<string>, results: seq<ProbeResult>, zone: string)
    requires Aggregates(g, zones, results) && zone in zones
    ensures
      var told := set k: nat | k < |results| && TellsRecord(results[k], zone) && PreferenceOf(results[k]).Some?;
      var isNull := exists r <- results ::
        TellsRecord(r, zone) && PreferenceOf(r) == Some(0) && "target" in r.labels && r.labels["target"] == ".";
      && [zone] in g.hasNullMXRR && g.hasNullMXRR[[zone]] == (if isNull then 1 else 0)
      && [zone] in g.nullMX && g.nullMX[[zone]] == (if isNull && |told| == 1 then 1 else 0)
  {
    var told := set k: nat | k < |results| && TellsRecord(results[k], zone) && PreferenceOf(results[k]).Some?;
    forall z: string ensures [z] == [zone] <==> z == zone {
      OneLabel(z, zone);
    }
    CountIsSize(Records, [zone], results, told);
    RecordsByFields(results, zone, ".", 0);
  }

  // ----- counters -----

  /** What the counters that outlive a cycle gain: a query, and a timeout, for each result with the address. */
  lemma CountersByFields(
    queries: Vector, queries': Vector, timeouts: Vector, timeouts': Vector, results: seq<ProbeResult>, ip: string)
    requires Advanced(queries, queries', Queries, results) && Advanced(timeouts, timeouts', Timeouts, results)
    requires ip != ""
    ensures ValueAt(queries', [ip]) == ValueAt(queries, [ip]) + |set k: nat | k < |results| && results[k].ip == ip|
    ensures ValueAt(timeouts', [ip])
         == ValueAt(timeouts, [ip]) + |set k: nat | k < |results| && results[k].ip == ip && results[k].timedOut|
  {
    forall x: string ensures [x] == [ip] <==> x == ip {
      OneLabel(x, ip);
    }
    CountIsSize(Queries, [ip], results, set k: nat | k < |results| && results[k].ip == ip);
    CountIsSize(Timeouts, [ip], results, set k: nat | k < |results| && results[k].ip == ip && results[k].timedOut);
  }

  function Total(times: seq<real>): real {
    if times == [] then 0.0 else Total(times[..|times| - 1]) + times[|times| - 1]
  }

  lemma TotalSnoc(times: seq<real>, t: real)
    ensures Total(times + [t]) == Total(times) + t
  {
    assert (times + [t])[..|times|] == times;
  }

  /** The durations at some positions. */
  ghost predicate AreTimesAt(times: seq<real>, results: seq<ProbeResult>, at: seq<nat>) {
    |times| == |at| && forall i :: 0 <= i < |at| ==> at[i] < |results| && times[i] == results[at[i]].duration
  }

  ghost predicate AreOf(at: seq<nat>, results: seq<ProbeResult>, ip: string) {
    Increasing(at) && forall k: nat :: k in at <==> k < |results| && results[k].ip == ip
  }

  lemma OneMoreTime(at: seq<nat>, times: seq<real>, results: seq<ProbeResult>, r: ProbeResult, ip: string)
    requires AreOf(at, results, ip) && AreTimesAt(times, results, at)
    ensures
      var n := |results|;
      if r.ip == ip then AreOf(at + [n], results + [r], ip) && AreTimesAt(times + [r.duration], results + [r], at + [n])
      else AreOf(at, results + [r], ip) && AreTimesAt(times, results + [r], at)
  {
    IncreasingSnoc(at, |results|);
    assert forall k :: 0 <= k < |results| ==> (results + [r])[k] == results[k];
  }

  /** The durations an address' time counter gains: those of the results with that address, each once. */
  lemma {:induction false} TimesAt(ip: string, results: seq<ProbeResult>) returns (at: seq<nat>, times: seq<real>)
    requires ip != ""
    ensures AreOf(at, results, ip) && AreTimesAt(times, results, at)
    ensures QueryTime(ip, results) == Total(times)
  {
    at, times := [], [];
    if results != [] {
      var init, r := results[..|results| - 1], results[|results| - 1];
      at, times := TimesAt(ip, init);
      OneMoreTime(at, times, init, r, ip);
      assert results == init + [r];
      if r.ip == ip {
        TotalSnoc(times, r.duration);
        at, times := at + [|init|], times + [r.duration];
      }
    }
  }

  /** And so it gains their sum, from nothing if it was not there. */
  lemma TimeByFields(before: map<string, real>, after: map<string, real>, results: seq<ProbeResult>, ip: string)
    returns (at: seq<nat>, times: seq<real>)
    requires AdvancedTime(before, after, results) && ip != ""
    ensures AreOf(at, results, ip) && AreTimesAt(times, results, at)
    ensures ip in after <==> ip in before || at != []
    ensures ip in after ==> after[ip] == (if ip in before then before[ip] else 0.0) + Total(times)
  {
    at, times := TimesAt(ip, results);
    forall x: string ensures [x] == [ip] <==> x == ip {
      OneLabel(x, ip);
    }
    var asked := set k: nat | k < |results| && results[k].ip == ip;
    CountIsSize(Queries, [ip], results, asked);
    SizeOfPositions(at, asked);
  }
}
