/** The registry of a whole cycle, from the probers' outcomes: prober/registry.go, cycle/runner.go. */
module RegistryCycle {
  import opened Wrappers
  import opened Text
  import opened Results
  import opened Sequences
  import opened FanOut
  import opened ZoneView
  import opened ProbeLoop
  import opened Registry

  // ----- what probers emit -----

  /** For each metric, the check it belongs to and the names of its extra labels. */
  type Schema = string -> (string, set<string>)

  predicate IsBuiltIn(metric: string) {
    PREFIX + metric == SUCCESS || PREFIX + metric == DURATION
  }

  /** The result's metrics are its own check's, with their own labels, and do not rename the zone. */
  ghost predicate Conforms(schema: Schema, r: ProbeResult) {
    && KeepsZone(r)
    && forall metric <- r.metrics :: schema(metric) == (r.check, r.labels.Keys) && !IsBuiltIn(metric)
  }

  ghost predicate AllConform(schema: Schema, results: seq<ProbeResult>) {
    forall r <- results :: Conforms(schema, r)
  }

  const BASE: set<string> := {"zone", "nameserver", "ip"}

  /** Help text and label names of every gauge published under a name. */
  function ShapeOf(schema: Schema, name: string): (string, set<string>) {
    if name == SUCCESS then (SUCCESS_HELP, BASE + {"check"})
    else if name == DURATION then (DURATION_HELP, BASE + {"check"})
    else if HasPrefix(name, PREFIX) then ("", BASE + schema(name[|PREFIX|..]).1)
    else ("", {})
  }

  function LabelOr(labels: Labels, key: string): string {
    if key in labels then labels[key] else ""
  }

  /** The check a series comes from, which its name or its labels tell. */
  function CheckOfSeries(schema: Schema, name: string, labels: Labels): string {
    if name == SUCCESS || name == DURATION then LabelOr(labels, "check")
    else if HasPrefix(name, PREFIX) then schema(name[|PREFIX|..]).0
    else ""
  }

  lemma BuiltInNames()
    ensures SUCCESS != DURATION && "zone" != "check" && "zone" != "nameserver" && "zone" != "ip"
    ensures "check" != "nameserver" && "check" != "ip"
  {
    assert |SUCCESS| != |DURATION|;
    assert |"zone"| != |"check"| && |"zone"| != |"nameserver"| && |"zone"| != |"ip"|;
    assert |"check"| != |"nameserver"| && |"check"| != |"ip"|;
  }

  /** What a result offers under a name has the name's shape and tells zone and check. */
  lemma OfferIsTypical(schema: Schema, r: ProbeResult, name: string, e: Emission)
    requires Conforms(schema, r) && e in Offers(r, name)
    ensures Fits(e, ShapeOf(schema, name).0, ShapeOf(schema, name).1)
    ensures "zone" in e.labels && e.labels["zone"] == r.zone
    ensures CheckOfSeries(schema, name, e.labels) == r.check
  {
    BuiltInNames();
    if e !in MetricOffers(r, r.metrics.Keys, name) {
      assert e == SuccessOf(r) || e == DurationOf(r);
      assert e.labels == CheckLabels(r);
    } else {
      var metric := name[|PREFIX|..];
      assert name == PREFIX + metric;
      assert schema(metric) == (r.check, r.labels.Keys) && !IsBuiltIn(metric);
      assert e == MetricOf(r, metric);
    }
  }

  lemma {:induction false} OffersAreTypical(schema: Schema, results: seq<ProbeResult>, name: string)
    requires AllConform(schema, results)
    ensures forall e <- AllOffers(results, name) :: Fits(e, ShapeOf(schema, name).0, ShapeOf(schema, name).1)
  {
    if results != [] {
      var init, r := results[..|results| - 1], results[|results| - 1];
      assert results == init + [r];
      OffersAreTypical(schema, init, name);
      forall e | e in Offers(r, name) ensures Fits(e, ShapeOf(schema, name).0, ShapeOf(schema, name).1) {
        OfferIsTypical(schema, r, name, e);
      }
    }
  }

  // ----- a series belongs to one zone and check -----

  /** A result of another zone or check has nothing to say about the series. */
  lemma OthersSayNothing(schema: Schema, r: ProbeResult, name: string, help: string, labels: Labels)
    requires Conforms(schema, r)
    requires !Mine(r, LabelOr(labels, "zone"), CheckOfSeries(schema, name, labels))
    ensures FirstValue(Offers(r, name), help, labels) == None
  {
    FirstValueIsOffered(Offers(r, name), help, labels);
    if e :| e in Offers(r, name) && e.labels == labels {
      OfferIsTypical(schema, r, name, e);
    }
  }

  lemma {:induction false} ValueIsOwn(
    schema: Schema, results: seq<ProbeResult>, name: string, help: string, labels: Labels, zone: string, check: string)
    requires AllConform(schema, results)
    requires zone == LabelOr(labels, "zone") && check == CheckOfSeries(schema, name, labels)
    ensures FirstValue(AllOffers(results, name), help, labels)
         == FirstValue(AllOffers(Own(results, zone, check), name), help, labels)
  {
    if results != [] {
      var init, r := results[..|results| - 1], results[|results| - 1];
      assert results == init + [r];
      ValueIsOwn(schema, init, name, help, labels, zone, check);
      AllOffersSnoc(init, r, name);
      OwnSnoc(init, r, zone, check);
      FirstValueOfConcat(AllOffers(init, name), Offers(r, name), help, labels);
      if Mine(r, zone, check) {
        var own := Own(init, zone, check);
        AllOffersSnoc(own, r, name);
        FirstValueOfConcat(AllOffers(own, name), Offers(r, name), help, labels);
      } else {
        OthersSayNothing(schema, r, name, help, labels);
      }
    }
  }

  lemma {:induction false} FirstOfferHasValue(offers: seq<Emission>)
    requires offers != []
    ensures FirstValue(offers, offers[0].help, offers[0].labels).Some?
  {
    if |offers| > 1 {
      FirstOfferHasValue(offers[..|offers| - 1]);
    }
  }

  lemma ValuedIsOffered(offers: seq<Emission>, help: string, labels: Labels)
    requires FirstValue(offers, help, labels).Some?
    ensures offers != []
  {
  }

  /** Per zone and check the same results in the same order. */
  ghost predicate SameChecks(a: seq<ProbeResult>, b: seq<ProbeResult>) {
    forall zone, check :: Own(a, zone, check) == Own(b, zone, check)
  }

  lemma SameSeriesValue(
    schema: Schema, a: seq<ProbeResult>, b: seq<ProbeResult>, name: string, help: string, labels: Labels)
    requires AllConform(schema, a) && AllConform(schema, b) && SameChecks(a, b)
    ensures FirstValue(AllOffers(a, name), help, labels) == FirstValue(AllOffers(b, name), help, labels)
  {
    var zone, check := LabelOr(labels, "zone"), CheckOfSeries(schema, name, labels);
    ValueIsOwn(schema, a, name, help, labels, zone, check);
    ValueIsOwn(schema, b, name, help, labels, zone, check);
    assert Own(a, zone, check) == Own(b, zone, check);
  }

  lemma OneSideOffers(schema: Schema, a: seq<ProbeResult>, b: seq<ProbeResult>, name: string)
    requires AllConform(schema, a) && AllConform(schema, b) && SameChecks(a, b)
    requires AllOffers(a, name) != []
    ensures AllOffers(b, name) != []
  {
    var e := AllOffers(a, name)[0];
    FirstOfferHasValue(AllOffers(a, name));
    SameSeriesValue(schema, a, b, name, e.help, e.labels);
    ValuedIsOffered(AllOffers(b, name), e.help, e.labels);
  }

  lemma SameFamilies(schema: Schema, a: seq<ProbeResult>, b: seq<ProbeResult>, name: string)
    requires AllConform(schema, a) && AllConform(schema, b) && SameChecks(a, b)
    ensures FamilyOf(AllOffers(a, name)) == FamilyOf(AllOffers(b, name))
  {
    var s, t := AllOffers(a, name), AllOffers(b, name);
    if s != [] {
      OneSideOffers(schema, a, b, name);
      OffersAreTypical(schema, a, name);
      OffersAreTypical(schema, b, name);
      assert s[0] in s && t[0] in t;
      forall labels ensures FirstValue(s, s[0].help, labels) == FirstValue(t, s[0].help, labels) {
        SameSeriesValue(schema, a, b, name, s[0].help, labels);
      }
      SameFamily(s, t);
    } else if t != [] {
      OneSideOffers(schema, b, a, name);
    }
  }

  ghost predicate Comparable(schema: Schema, a: seq<ProbeResult>, b: seq<ProbeResult>) {
    AllConform(schema, a) && AllConform(schema, b) && SameChecks(a, b)
  }

  lemma SameRegistries(schema: Schema, a: seq<ProbeResult>, b: seq<ProbeResult>, m: Metrics, m': Metrics)
    requires Comparable(schema, a, b) && IsBuilt(m, a) && IsBuilt(m', b)
    ensures m == m'
  {
    forall n ensures Lookup(m, n) == Lookup(m', n) {
      SameFamilies(schema, a, b, n);
    }
    SameMetrics(m, m');
  }

  // ----- whole cycles -----

  lemma {:induction false} GatheredResult(batches: seq<seq<ProbeResult>>, order: seq<nat>, r: ProbeResult)
    requires forall j :: 0 <= j < |order| ==> order[j] < |batches|
    ensures r in Gather(batches, order) ==> exists i :: 0 <= i < |batches| && r in batches[i]
  {
    if order != [] {
      GatheredResult(batches, order[..|order| - 1], r);
    }
  }

  lemma {:induction false} BatchedResult(outcomes: Outcomes, order: seq<string>, r: ProbeResult)
    ensures r in InOrder(outcomes, order) ==> exists name :: r in ResultsOf(outcomes, name)
  {
    if order != [] {
      BatchedResult(outcomes, order[..|order| - 1], r);
    }
  }

  ghost predicate OutcomesConform(schema: Schema, outcomes: seq<Outcomes>) {
    forall i, name :: 0 <= i < |outcomes| ==> AllConform(schema, ResultsOf(outcomes[i], name))
  }

  /** Every gathered result is some zone's, from one of its probers. */
  lemma GatheredFrom(
    outcomes: seq<Outcomes>, zones: seq<string>, batches: seq<seq<ProbeResult>>, run: seq<State>, r: ProbeResult)
    returns (i: nat, name: string)
    requires Yields(outcomes, zones, batches)
    requires IsRun(batches, run) && AllFinished(run[|run| - 1]) && r in run[|run| - 1].shared
    ensures i < |zones| && r in ResultsOf(outcomes[i], name)
  {
    WaitGathersEveryBatchOnce(batches, run);
    GatheredResult(batches, run[|run| - 1].order, r);
    i :| i < |batches| && r in batches[i];
    assert IsBatch(outcomes[i], batches[i]);
    var order :| IsOrder(outcomes[i], order) && batches[i] == InOrder(outcomes[i], order);
    BatchedResult(outcomes[i], order, r);
    name :| r in ResultsOf(outcomes[i], name);
  }

  lemma CycleConforms(
    schema: Schema, outcomes: seq<Outcomes>, zones: seq<string>, batches: seq<seq<ProbeResult>>, run: seq<State>)
    requires Yields(outcomes, zones, batches) && OutcomesConform(schema, outcomes)
    requires IsRun(batches, run) && AllFinished(run[|run| - 1])
    ensures AllConform(schema, run[|run| - 1].shared)
  {
    forall r | r in run[|run| - 1].shared ensures Conforms(schema, r) {
      var i, name := GatheredFrom(outcomes, zones, batches, run, r);
      assert AllConform(schema, ResultsOf(outcomes[i], name));
    }
  }

  /** What a cycle has of any zone and check, configured or not, is fixed by the outcomes. */
  lemma CycleOwns(
    outcomes: seq<Outcomes>, zones: seq<string>, batches: seq<seq<ProbeResult>>, run: seq<State>,
    zone: string, check: string)
    requires Yields(outcomes, zones, batches) && NoRepeats(zones)
    requires IsRun(batches, run) && AllFinished(run[|run| - 1])
    ensures zone !in zones ==> Own(run[|run| - 1].shared, zone, check) == []
    ensures forall k :: 0 <= k < |zones| && zones[k] == zone ==>
              Own(run[|run| - 1].shared, zone, check) == ResultsOf(outcomes[k], check)
  {
    if zone !in zones {
      forall r | r in run[|run| - 1].shared ensures r.zone != zone {
        var i, name := GatheredFrom(outcomes, zones, batches, run, r);
        assert Named(outcomes[i], zones[i]);
      }
      OwnOfOther(run[|run| - 1].shared, zone, check);
    } else {
      var k :| 0 <= k < |zones| && zones[k] == zone;
      CycleKeepsEachCheckWhole(outcomes, zones, batches, run, k, check);
    }
  }

  lemma CyclesHaveSameChecks(
    outcomes: seq<Outcomes>, zones: seq<string>, batches: seq<seq<ProbeResult>>, batches': seq<seq<ProbeResult>>,
    run: seq<State>, run': seq<State>)
    requires Yields(outcomes, zones, batches) && Yields(outcomes, zones, batches') && NoRepeats(zones)
    requires IsRun(batches, run) && AllFinished(run[|run| - 1])
    requires IsRun(batches', run') && AllFinished(run'[|run'| - 1])
    ensures SameChecks(run[|run| - 1].shared, run'[|run'| - 1].shared)
  {
    var a, b := run[|run| - 1].shared, run'[|run'| - 1].shared;
    forall zone, check ensures Own(a, zone, check) == Own(b, zone, check) {
      CycleOwns(outcomes, zones, batches, run, zone, check);
      CycleOwns(outcomes, zones, batches', run', zone, check);
      if zone in zones {
        var k :| 0 <= k < |zones| && zones[k] == zone;
      }
    }
  }

  lemma CyclesCompare(
    schema: Schema, outcomes: seq<Outcomes>, zones: seq<string>, a: seq<ProbeResult>, b: seq<ProbeResult>)
    requires NoRepeats(zones) && OutcomesConform(schema, outcomes)
    requires Gathers(outcomes, zones, a) && Gathers(outcomes, zones, b)
    ensures Comparable(schema, a, b)
  {
    var batches, run := CycleOf(outcomes, zones, a);
    var batches', run' := CycleOf(outcomes, zones, b);
    CycleConforms(schema, outcomes, zones, batches, run);
    CycleConforms(schema, outcomes, zones, batches', run');
    CyclesHaveSameChecks(outcomes, zones, batches, batches', run, run');
  }

  /**
   * The registry a cycle publishes is a function of the probers' outcomes: the schedule of the
   * zones and the order of the probers within each do not show in any series.
   */
  lemma RegistryIsScheduleIndependent(
    schema: Schema, outcomes: seq<Outcomes>, zones: seq<string>, a: seq<ProbeResult>, b: seq<ProbeResult>,
    m: Metrics, m': Metrics)
    requires NoRepeats(zones) && OutcomesConform(schema, outcomes)
    requires Gathers(outcomes, zones, a) && Gathers(outcomes, zones, b)
    requires IsBuilt(m, a) && IsBuilt(m', b)
    ensures m == m'
  {
    CyclesCompare(schema, outcomes, zones, a, b);
    SameRegistries(schema, a, b, m, m');
  }
}
