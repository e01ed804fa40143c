/** What a registry built from results serves, in terms of the results: prober/registry.go. */
module RegistryValues {
  import opened Wrappers
  import opened Text
  import opened Results
  import opened Registry
  import opened RegistryCycle

  /** A served sample: a metric name, its labels, and the value. */
  function Sample(m: Metrics, name: string, labels: Labels): Option<real> {
    if name in m && labels in m[name].series then Some(m[name].series[labels]) else None
  }

  // ----- the first of several values -----

  function FirstSome(values: seq<Option<real>>): Option<real> {
    if values == [] then None
    else
      var before := FirstSome(values[..|values| - 1]);
      if before.Some? then before else values[|values| - 1]
  }

  ghost predicate IsFirstSome(values: seq<Option<real>>, k: nat) {
    k < |values| && values[k].Some? && forall j :: 0 <= j < k ==> values[j].None?
  }

  lemma {:induction false} FirstSomeIsFirst(values: seq<Option<real>>)
    ensures FirstSome(values).None? ==> forall j :: 0 <= j < |values| ==> values[j].None?
    ensures FirstSome(values).Some? ==> exists k: nat :: IsFirstSome(values, k)
    ensures forall k: nat :: IsFirstSome(values, k) ==> FirstSome(values) == values[k]
  {
    if values != [] {
      var n := |values| - 1;
      var init := values[..n];
      FirstSomeIsFirst(init);
      assert forall j :: 0 <= j < n ==> init[j] == values[j];
      if FirstSome(init).Some? {
        var k: nat :| IsFirstSome(init, k);
        assert IsFirstSome(values, k);
      } else if values[n].Some? {
        assert IsFirstSome(values, n);
      }
      forall k: nat | IsFirstSome(values, k) ensures FirstSome(values) == values[k] {
        assert k < n ==> IsFirstSome(init, k);
      }
    }
  }

  /** The value under a name and labels is that of the first result that gives one. */
  lemma {:induction false} ValueByResult(
    results: seq<ProbeResult>, name: string, help: string, labels: Labels, values: seq<Option<real>>)
    requires |values| == |results|
    requires forall i :: 0 <= i < |results| ==> FirstValue(Offers(results[i], name), help, labels) == values[i]
    ensures FirstValue(AllOffers(results, name), help, labels) == FirstSome(values)
  {
    if results != [] {
      var n := |results| - 1;
      ValueByResult(results[..n], name, help, labels, values[..n]);
      FirstValueOfConcat(AllOffers(results[..n], name), Offers(results[n], name), help, labels);
    }
  }

  // ----- the query gauges -----

  /** The labels of a query gauge: the result's zone, server, address and check. */
  function QueryLabels(r: ProbeResult): Labels {
    map["zone" := r.zone, "nameserver" := r.nameserver, "ip" := r.ip, "check" := r.check]
  }

  /** The first result of this zone, server, address and check. */
  ghost predicate IsFirstAbout(results: seq<ProbeResult>, labels: Labels, k: nat) {
    && k < |results| && QueryLabels(results[k]) == labels
    && forall j :: 0 <= j < k ==> QueryLabels(results[j]) != labels
  }

  predicate IsQueryGauge(name: string, help: string) {
    (name == SUCCESS && help == SUCCESS_HELP) || (name == DURATION && help == DURATION_HELP)
  }

  /** 1 or 0 for success, and the time taken in seconds. */
  function QueryValue(name: string, r: ProbeResult): real {
    if name == "dnshealth_query_success" then (if r.success then 1.0 else 0.0) else r.duration
  }

  lemma HelpIsNotEmpty()
    ensures SUCCESS_HELP != "" && DURATION_HELP != "" && SUCCESS != DURATION
  {
    assert |SUCCESS| != |DURATION|;
  }

  lemma {:induction false} OtherHelpSaysNothing(offers: seq<Emission>, help: string, labels: Labels)
    requires forall e <- offers :: e.help != help
    ensures FirstValue(offers, help, labels) == None
  {
    if offers != [] {
      OtherHelpSaysNothing(offers[..|offers| - 1], help, labels);
    }
  }

  lemma ValueOfOne(e: Emission, help: string, labels: Labels)
    ensures FirstValue([e], help, labels) == if e.help == help && e.labels == labels then Some(e.value) else None
  {
    assert [e][..0] == [];
  }

  /** One result's value under the query gauges' names: its own, whatever its metrics are called. */
  lemma QueryOffer(r: ProbeResult, name: string, help: string, labels: Labels)
    requires IsQueryGauge(name, help)
    ensures FirstValue(Offers(r, name), help, labels) == QueryOption(name, r, labels)
  {
    HelpIsNotEmpty();
    var e := if name == SUCCESS then SuccessOf(r) else DurationOf(r);
    var rest := MetricOffers(r, r.metrics.Keys, name);
    assert Offers(r, name) == [e] + rest;
    FirstValueOfConcat([e], rest, help, labels);
    ValueOfOne(e, help, labels);
    OtherHelpSaysNothing(rest, help, labels);
  }

  /** The first offer under such a name is the first result's own. */
  lemma {:induction false} QueryOffersComeFirst(results: seq<ProbeResult>, name: string)
    requires results != [] && (name == SUCCESS || name == DURATION)
    ensures
      var offers := AllOffers(results, name);
      offers != [] && offers[0] == if name == SUCCESS then SuccessOf(results[0]) else DurationOf(results[0])
  {
    HelpIsNotEmpty();
    var init, r := results[..|results| - 1], results[|results| - 1];
    if init != [] {
      QueryOffersComeFirst(init, name);
      assert init[0] == results[0];
    } else {
      assert AllOffers(init, name) == [];
    }
  }

  /** Such a gauge is never refused for its shape. */
  lemma QuerySample(m: Metrics, results: seq<ProbeResult>, name: string, help: string, labels: Labels)
    requires IsBuilt(m, results) && IsQueryGauge(name, help)
    ensures Sample(m, name, labels) == FirstValue(AllOffers(results, name), help, labels)
  {
    var offers := AllOffers(results, name);
    assert Lookup(m, name) == FamilyOf(offers);
    if results != [] {
      QueryOffersComeFirst(results, name);
      FirstRegistrationWins(offers, labels);
      ValuedIsTypical(results, name, help, labels, offers[0].labels.Keys);
    }
  }

  /** Labels with a value have the names that all query gauges have. */
  lemma ValuedIsTypical(results: seq<ProbeResult>, name: string, help: string, labels: Labels, names: set<string>)
    requires IsQueryGauge(name, help) && names == {"zone", "nameserver", "ip", "check"}
    ensures labels.Keys != names ==> FirstValue(AllOffers(results, name), help, labels) == None
  {
    if labels.Keys != names {
      var values := seq(|results|, i requires 0 <= i < |results| => None);
      forall i | 0 <= i < |results| ensures FirstValue(Offers(results[i], name), help, labels) == values[i] {
        QueryOffer(results[i], name, help, labels);
      }
      ValueByResult(results, name, help, labels, values);
      FirstSomeIsFirst(values);
    }
  }

  lemma QueryGauge(m: Metrics, results: seq<ProbeResult>, name: string, help: string, labels: Labels)
    requires IsBuilt(m, results) && IsQueryGauge(name, help)
    ensures Sample(m, name, labels).Some? <==> exists r <- results :: QueryLabels(r) == labels
    ensures forall k: nat :: IsFirstAbout(results, labels, k) ==>
              Sample(m, name, labels) == Some(QueryValue(name, results[k]))
  {
    var n := |results|;
    var values := seq(n, i requires 0 <= i < n => QueryOption(name, results[i], labels));
    forall i | 0 <= i < n ensures FirstValue(Offers(results[i], name), help, labels) == values[i] {
      QueryOffer(results[i], name, help, labels);
    }
    QuerySample(m, results, name, help, labels);
    ValueByResult(results, name, help, labels, values);
    FirstQueryDecides(results, name, labels, values);
  }

  function QueryOption(name: string, r: ProbeResult, labels: Labels): Option<real> {
    if QueryLabels(r) == labels then Some(QueryValue(name, r)) else None
  }

  lemma FirstQueryDecides(results: seq<ProbeResult>, name: string, labels: Labels, values: seq<Option<real>>)
    requires |values| == |results|
    requires forall i :: 0 <= i < |results| ==> values[i] == QueryOption(name, results[i], labels)
    ensures FirstSome(values).Some? <==> exists r <- results :: QueryLabels(r) == labels
    ensures forall k: nat :: IsFirstAbout(results, labels, k) ==>
              FirstSome(values) == Some(QueryValue(name, results[k]))
  {
    FirstSomeIsFirst(values);
    forall r | r in results && QueryLabels(r) == labels ensures FirstSome(values).Some? {
      var i :| 0 <= i < |results| && results[i] == r;
      assert values[i].Some?;
    }
    forall k: nat | IsFirstAbout(results, labels, k) ensures FirstSome(values) == values[k] {
      assert IsFirstSome(values, k);
    }
  }

  /**
   * What is served about queries, for all results whatever: a success and a duration exactly for the
   * zone, server, address and check of some result; 1 iff the first such result succeeded, and that
   * result's duration.
   */
  lemma QueryGaugesAreExact(m: Metrics, results: seq<ProbeResult>, labels: Labels)
    requires IsBuilt(m, results)
    ensures Sample(m, "dnshealth_query_success", labels).Some? <==> exists r <- results :: QueryLabels(r) == labels
    ensures Sample(m, "dnshealth_query_duration_seconds", labels).Some? <==>
              exists r <- results :: QueryLabels(r) == labels
    ensures forall k: nat :: IsFirstAbout(results, labels, k) ==>
              && Sample(m, "dnshealth_query_success", labels) == Some(if results[k].success then 1.0 else 0.0)
              && Sample(m, "dnshealth_query_duration_seconds", labels) == Some(results[k].duration)
  {
    QueryGauge(m, results, SUCCESS, SUCCESS_HELP, labels);
    QueryGauge(m, results, DURATION, DURATION_HELP, labels);
    HelpIsNotEmpty();
  }

  // ----- the metric gauges -----

  /** The labels of a metric: zone, server and address, and the result's own, which go before them. */
  function MetricLabels(r: ProbeResult): Labels {
    map["zone" := r.zone, "nameserver" := r.nameserver, "ip" := r.ip] + r.labels
  }

  predicate Publishes(r: ProbeResult, metric: string, labels: Labels) {
    metric in r.metrics && MetricLabels(r) == labels
  }

  ghost predicate IsFirstPublisher(results: seq<ProbeResult>, metric: string, labels: Labels, k: nat) {
    && k < |results| && Publishes(results[k], metric, labels)
    && forall j :: 0 <= j < k ==> !Publishes(results[j], metric, labels)
  }

  function MetricValue(r: ProbeResult, metric: string, labels: Labels): Option<real> {
    if Publishes(r, metric, labels) then Some(r.metrics[metric]) else None
  }

  lemma MetricOffer(r: ProbeResult, metric: string, name: string, labels: Labels)
    requires name == PREFIX + metric && HasPrefix(name, PREFIX) && name[|PREFIX|..] == metric
    requires name != SUCCESS && name != DURATION
    ensures FirstValue(Offers(r, name), "", labels) == MetricValue(r, metric, labels)
  {
    if metric in r.metrics {
      assert Offers(r, name) == [MetricOf(r, metric)];
      ValueOfOne(MetricOf(r, metric), "", labels);
    } else {
      assert Offers(r, name) == [];
    }
  }

  /** Metrics of one schema are never refused for their shape. */
  lemma MetricSample(schema: Schema, m: Metrics, results: seq<ProbeResult>, name: string, labels: Labels)
    requires IsBuilt(m, results) && AllConform(schema, results)
    requires HasPrefix(name, PREFIX) && name != SUCCESS && name != DURATION
    ensures Sample(m, name, labels) == FirstValue(AllOffers(results, name), "", labels)
  {
    var offers := AllOffers(results, name);
    assert Lookup(m, name) == FamilyOf(offers);
    OffersAreTypical(schema, results, name);
    if offers != [] {
      FirstRegistrationWins(offers, labels);
      assert offers[0] in offers;
      FirstValueIsOffered(offers, "", labels);
    }
  }

  /**
   * What is served of a metric, for results that keep to one schema: a sample exactly under the
   * labels of the results that have the metric, with the value of the first of them.
   */
  lemma MetricGaugesAreExact(schema: Schema, m: Metrics, results: seq<ProbeResult>, metric: string, labels: Labels)
    requires IsBuilt(m, results) && AllConform(schema, results)
    requires metric != "query_success" && metric != "query_duration_seconds"
    ensures Sample(m, "dnshealth_" + metric, labels).Some? <==> exists r <- results :: Publishes(r, metric, labels)
    ensures forall k: nat :: IsFirstPublisher(results, metric, labels, k) ==>
              Sample(m, "dnshealth_" + metric, labels) == Some(results[k].metrics[metric])
  {
    var name, n := PREFIX + metric, |results|;
    NotAQueryGauge(metric);
    MetricSample(schema, m, results, name, labels);
    var values := seq(n, i requires 0 <= i < n => MetricValue(results[i], metric, labels));
    forall i | 0 <= i < n ensures FirstValue(Offers(results[i], name), "", labels) == values[i] {
      MetricOffer(results[i], metric, name, labels);
    }
    ValueByResult(results, name, "", labels, values);
    FirstPublisherDecides(results, metric, labels, values);
  }

  lemma FirstPublisherDecides(results: seq<ProbeResult>, metric: string, labels: Labels, values: seq<Option<real>>)
    requires |values| == |results|
    requires forall i :: 0 <= i < |results| ==> values[i] == MetricValue(results[i], metric, labels)
    ensures FirstSome(values).Some? <==> exists r <- results :: Publishes(r, metric, labels)
    ensures forall k: nat :: IsFirstPublisher(results, metric, labels, k) ==>
              FirstSome(values) == Some(results[k].metrics[metric])
  {
    FirstSomeIsFirst(values);
    forall r | r in results && Publishes(r, metric, labels) ensures FirstSome(values).Some? {
      var i :| 0 <= i < |results| && results[i] == r;
      assert values[i].Some?;
    }
    forall k: nat | IsFirstPublisher(results, metric, labels, k) ensures FirstSome(values) == values[k] {
      assert IsFirstSome(values, k);
    }
  }

  lemma NotAQueryGauge(metric: string)
    requires metric != "query_success" && metric != "query_duration_seconds"
    ensures PREFIX + metric != SUCCESS && PREFIX + metric != DURATION
    ensures HasPrefix(PREFIX + metric, PREFIX) && (PREFIX + metric)[|PREFIX|..] == metric
  {
    var name := PREFIX + metric;
    assert name[|PREFIX|..] == metric && name[..|PREFIX|] == PREFIX;
    assert SUCCESS[|PREFIX|..] == "query_success" && DURATION[|PREFIX|..] == "query_duration_seconds";
  }
}
