/** The per-cycle metric registry: prober/registry.go. */
module Registry {
  import opened Wrappers
  import opened Text
  import opened Results
  import opened Sequences
  import opened FanOut

  type Labels = map<string, string>

  /** One gauge offered to the registry. */
  datatype Emission = Emission(name: string, help: string, labels: Labels, value: real)

  /** The gauges of one name: they share their help text and label names. */
  datatype Family = Family(help: string, names: set<string>, series: map<Labels, real>)

  type Metrics = map<string, Family>

  // ----- registration -----

  predicate Fits(e: Emission, help: string, names: set<string>) {
    e.help == help && e.labels.Keys == names
  }

  /** A gauge of another shape, or of a known series, is refused, and the refusal ignored. */
  function Admit(f: Option<Family>, e: Emission): Option<Family> {
    match f
    case None => Some(Family(e.help, e.labels.Keys, map[e.labels := e.value]))
    case Some(fam) =>
      if !Fits(e, fam.help, fam.names) || e.labels in fam.series then f
      else Some(fam.(series := fam.series[e.labels := e.value]))
  }

  function Lookup(m: Metrics, name: string): Option<Family> {
    if name in m then Some(m[name]) else None
  }

  /** Only the gauge's own family changes, and only as `Admit` says. */
  ghost predicate Admits(m: Metrics, e: Emission, m': Metrics) {
    forall n :: Lookup(m', n) == if n == e.name then Admit(Lookup(m, n), e) else Lookup(m, n)
  }

  method RegisterGauge(m: Metrics, e: Emission) returns (m': Metrics)
    ensures Admits(m, e, m')
  {
    if e.name in m {
      var fam := m[e.name];
      if fam.help != e.help || fam.names != e.labels.Keys || e.labels in fam.series {
        return m;
      }
      return m[e.name := fam.(series := fam.series[e.labels := e.value])];
    }
    return m[e.name := Family(e.help, e.labels.Keys, map[e.labels := e.value])];
  }

  /** What a sequence of offers for one name leaves. */
  function FamilyOf(offers: seq<Emission>): Option<Family> {
    if offers == [] then None else Admit(FamilyOf(offers[..|offers| - 1]), offers[|offers| - 1])
  }

  // ----- what a result offers -----

  const PREFIX: string := "dnshealth_"
  const SUCCESS: string := "dnshealth_query_success"
  const DURATION: string := "dnshealth_query_duration_seconds"
  const SUCCESS_HELP: string := "Whether the query to this nameserver succeeded (1=success, 0=failure)."
  const DURATION_HELP: string := "Duration of the query to this nameserver in seconds."

  function BaseLabels(r: ProbeResult): Labels {
    map["zone" := r.zone, "nameserver" := r.nameserver, "ip" := r.ip] + r.labels
  }

  function CheckLabels(r: ProbeResult): Labels {
    map["zone" := r.zone, "nameserver" := r.nameserver, "ip" := r.ip, "check" := r.check]
  }

  function SuccessOf(r: ProbeResult): Emission {
    Emission(SUCCESS, SUCCESS_HELP, CheckLabels(r), if r.success then 1.0 else 0.0)
  }

  function DurationOf(r: ProbeResult): Emission {
    Emission(DURATION, DURATION_HELP, CheckLabels(r), r.duration)
  }

  function MetricOf(r: ProbeResult, metric: string): Emission
    requires metric in r.metrics
  {
    Emission(PREFIX + metric, "", BaseLabels(r), r.metrics[metric])
  }

  /** The metric a result publishes under a name, among some of its metrics. */
  function MetricOffers(r: ProbeResult, among: set<string>, name: string): seq<Emission>
    requires among <= r.metrics.Keys
  {
    if HasPrefix(name, PREFIX) && name[|PREFIX|..] in among then [MetricOf(r, name[|PREFIX|..])] else []
  }

  /** A result's offers for one name, in the order it makes them; its metrics come in any order. */
  function Offers(r: ProbeResult, name: string): seq<Emission> {
    (if name == SUCCESS then [SuccessOf(r)] else [])
    + (if name == DURATION then [DurationOf(r)] else [])
    + MetricOffers(r, r.metrics.Keys, name)
  }

  function AllOffers(results: seq<ProbeResult>, name: string): seq<Emission> {
    if results == [] then []
    else AllOffers(results[..|results| - 1], name) + Offers(results[|results| - 1], name)
  }

  ghost predicate IsBuilt(m: Metrics, results: seq<ProbeResult>) {
    forall n :: Lookup(m, n) == FamilyOf(AllOffers(results, n))
  }

  method BuildRegistry(results: seq<ProbeResult>) returns (m: Metrics)
    ensures IsBuilt(m, results)
  {
    m := map[];
    for i := 0 to |results|
      invariant IsBuilt(m, results[..i])
    {
      assert results[..i + 1][..i] == results[..i];
      m := RegisterResult(m, results[i], results[..i]);
    }
    assert results[..|results|] == results;
  }

  lemma FamilyOfSnoc(offers: seq<Emission>, e: Emission)
    ensures FamilyOf(offers + [e]) == Admit(FamilyOf(offers), e)
  {
    assert (offers + [e])[..|offers|] == offers;
  }

  /** One result: its success and duration gauges, then its metrics in map order. */
  method RegisterResult(m0: Metrics, r: ProbeResult, ghost before: seq<ProbeResult>) returns (m: Metrics)
    requires IsBuilt(m0, before)
    ensures forall n :: Lookup(m, n) == FamilyOf(AllOffers(before, n) + Offers(r, n))
  {
    var m1 := RegisterGauge(m0, SuccessOf(r));
    m := RegisterGauge(m1, DurationOf(r));
    BuiltInsRegistered(m0, m1, m, r, before);
    var left := r.metrics.Keys;
    ghost var done: set<string> := {};
    while left != {}
      invariant left + done == r.metrics.Keys && left !! done
      invariant Registered(m, before, r, done)
      decreases left
    {
      var metric :| metric in left;
      left := left - {metric};
      ghost var previous := m;
      m := RegisterGauge(m, MetricOf(r, metric));
      MetricRegistered(previous, m, before, r, done, metric);
      done := done + {metric};
    }
    assert done == r.metrics.Keys;
    AllRegistered(m, before, r);
  }

  /** The registry holds the offers of `before`, and of `r` the built-in gauges and the metrics `done`. */
  ghost predicate Registered(m: Metrics, before: seq<ProbeResult>, r: ProbeResult, done: set<string>) {
    done <= r.metrics.Keys && forall n :: Lookup(m, n) == FamilyOf(OffersUpTo(before, r, done, n))
  }

  lemma BuiltInsRegistered(m0: Metrics, m1: Metrics, m2: Metrics, r: ProbeResult, before: seq<ProbeResult>)
    requires IsBuilt(m0, before) && Admits(m0, SuccessOf(r), m1) && Admits(m1, DurationOf(r), m2)
    ensures Registered(m2, before, r, {})
  {
    forall n ensures Lookup(m2, n) == FamilyOf(OffersUpTo(before, r, {}, n)) {
      AfterBuiltIns(m0, m1, m2, r, before, n);
    }
  }

  lemma MetricRegistered(
    m: Metrics, m': Metrics, before: seq<ProbeResult>, r: ProbeResult, done: set<string>, metric: string)
    requires metric in r.metrics && metric !in done
    requires Registered(m, before, r, done) && Admits(m, MetricOf(r, metric), m')
    ensures Registered(m', before, r, done + {metric})
  {
    forall n ensures Lookup(m', n) == FamilyOf(OffersUpTo(before, r, done + {metric}, n)) {
      assert Lookup(m, n) == FamilyOf(OffersUpTo(before, r, done, n));
      OneMoreMetric(before, r, done, metric, n);
    }
  }

  lemma AllRegistered(m: Metrics, before: seq<ProbeResult>, r: ProbeResult)
    requires Registered(m, before, r, r.metrics.Keys)
    ensures forall n :: Lookup(m, n) == FamilyOf(AllOffers(before, n) + Offers(r, n))
  {
    forall n ensures Lookup(m, n) == FamilyOf(AllOffers(before, n) + Offers(r, n)) {
      assert OffersUpTo(before, r, r.metrics.Keys, n) == AllOffers(before, n) + Offers(r, n);
    }
  }

  /** The offers for a name once some of the last result's metrics have been registered. */
  ghost function OffersUpTo(before: seq<ProbeResult>, r: ProbeResult, done: set<string>, name: string): seq<Emission>
    requires done <= r.metrics.Keys
  {
    AllOffers(before, name)
    + (if name == SUCCESS then [SuccessOf(r)] else [])
    + (if name == DURATION then [DurationOf(r)] else [])
    + MetricOffers(r, done, name)
  }

  lemma AfterBuiltIns(m0: Metrics, m1: Metrics, m2: Metrics, r: ProbeResult, before: seq<ProbeResult>, n: string)
    requires Lookup(m0, n) == FamilyOf(AllOffers(before, n))
    requires Lookup(m1, n) == if n == SUCCESS then Admit(Lookup(m0, n), SuccessOf(r)) else Lookup(m0, n)
    requires Lookup(m2, n) == if n == DURATION then Admit(Lookup(m1, n), DurationOf(r)) else Lookup(m1, n)
    ensures Lookup(m2, n) == FamilyOf(OffersUpTo(before, r, {}, n))
  {
    var offers := AllOffers(before, n);
    assert |SUCCESS| != |DURATION|;
    BuiltInOffers(before, r, n);
    if n == SUCCESS {
      FamilyOfSnoc(offers, SuccessOf(r));
    } else if n == DURATION {
      FamilyOfSnoc(offers, DurationOf(r));
    }
  }

  lemma BuiltInOffers(before: seq<ProbeResult>, r: ProbeResult, n: string)
    requires n == SUCCESS ==> n != DURATION
    ensures
      var offers := AllOffers(before, n);
      OffersUpTo(before, r, {}, n) ==
        if n == SUCCESS then offers + [SuccessOf(r)] else if n == DURATION then offers + [DurationOf(r)] else offers
  {
  }

  lemma OneMoreMetric(before: seq<ProbeResult>, r: ProbeResult, done: set<string>, metric: string, n: string)
    requires done <= r.metrics.Keys && metric in r.metrics && metric !in done
    ensures
      var offers := OffersUpTo(before, r, done, n);
      FamilyOf(OffersUpTo(before, r, done + {metric}, n)) ==
        if n == PREFIX + metric then Admit(FamilyOf(offers), MetricOf(r, metric)) else FamilyOf(offers)
  {
    var offers := OffersUpTo(before, r, done, n);
    MetricOffersAdd(r, done, metric, n);
    if n == PREFIX + metric {
      FamilyOfSnoc(offers, MetricOf(r, metric));
      assert OffersUpTo(before, r, done + {metric}, n) == offers + [MetricOf(r, metric)];
    }
  }

  lemma MetricOffersAdd(r: ProbeResult, done: set<string>, metric: string, n: string)
    requires done <= r.metrics.Keys && metric in r.metrics && metric !in done
    ensures MetricOffers(r, done + {metric}, n)
         == MetricOffers(r, done, n) + if n == PREFIX + metric then [MetricOf(r, metric)] else []
  {
    if n == PREFIX + metric {
      assert n[|PREFIX|..] == metric && n[..|PREFIX|] == PREFIX;
    } else {
      assert HasPrefix(n, PREFIX) ==> n == PREFIX + n[|PREFIX|..];
    }
  }

  // ----- first registration wins -----

  /** The value the first fitting offer gives a series. */
  function FirstValue(offers: seq<Emission>, help: string, labels: Labels): Option<real> {
    if offers == [] then None
    else
      var before, e := FirstValue(offers[..|offers| - 1], help, labels), offers[|offers| - 1];
      if before.None? && e.help == help && e.labels == labels then Some(e.value) else before
  }

  /**
   * The first offer fixes the family's shape; after that each series has the value of the first
   * offer of that shape for it, and there are no other series.
   */
  lemma {:induction false} FirstRegistrationWins(offers: seq<Emission>, labels: Labels)
    requires offers != []
    ensures FamilyOf(offers).Some?
    ensures
      var fam := FamilyOf(offers).value;
      && fam.help == offers[0].help && fam.names == offers[0].labels.Keys
      && (if labels in fam.series then Some(fam.series[labels]) else None)
         == if labels.Keys == fam.names then FirstValue(offers, fam.help, labels) else None
  {
    var init := offers[..|offers| - 1];
    if init != [] {
      FirstRegistrationWins(init, labels);
    } else {
      assert FirstValue(init, offers[0].help, labels) == None;
    }
  }

  lemma SameFamily(a: seq<Emission>, b: seq<Emission>)
    requires a != [] && b != []
    requires Fits(a[0], b[0].help, b[0].labels.Keys)
    requires forall labels :: FirstValue(a, a[0].help, labels) == FirstValue(b, a[0].help, labels)
    ensures FamilyOf(a) == FamilyOf(b)
  {
    FirstRegistrationWins(a, map[]);
    FirstRegistrationWins(b, map[]);
    var f, g := FamilyOf(a).value, FamilyOf(b).value;
    forall labels ensures (if labels in f.series then Some(f.series[labels]) else None)
                       == (if labels in g.series then Some(g.series[labels]) else None)
    {
      FirstRegistrationWins(a, labels);
      FirstRegistrationWins(b, labels);
    }
    SameMap(f.series, g.series);
  }

  lemma SameMap(f: map<Labels, real>, g: map<Labels, real>)
    requires forall l :: (if l in f then Some(f[l]) else None) == (if l in g then Some(g[l]) else None)
    ensures f == g
  {
    forall l ensures (l in f <==> l in g) && (l in f ==> f[l] == g[l]) {
      assert (if l in f then Some(f[l]) else None) == (if l in g then Some(g[l]) else None);
    }
  }

  // ----- order of batches -----

  lemma {:induction false} FirstValueOfConcat(a: seq<Emission>, b: seq<Emission>, help: string, labels: Labels)
    ensures FirstValue(a + b, help, labels)
         == if FirstValue(a, help, labels).Some? then FirstValue(a, help, labels) else FirstValue(b, help, labels)
  {
    if b == [] {
      assert a + b == a;
    } else {
      assert (a + b)[..|a + b| - 1] == a + b[..|b| - 1];
      FirstValueOfConcat(a, b[..|b| - 1], help, labels);
    }
  }

  lemma {:induction false} FirstValueIsOffered(offers: seq<Emission>, help: string, labels: Labels)
    ensures FirstValue(offers, help, labels).Some? ==> exists e <- offers :: e.labels == labels
  {
    if offers != [] {
      var init, e := offers[..|offers| - 1], offers[|offers| - 1];
      assert offers == init + [e];
      FirstValueIsOffered(init, help, labels);
    }
  }

  /** No series is offered on both sides. */
  ghost predicate Disjoint(a: seq<Emission>, b: seq<Emission>) {
    forall e, e' :: e in a && e' in b ==> e.labels != e'.labels
  }

  /**
   * Two batches that share no series build the same family in either order exactly when their
   * first offers have the same shape; only then does nothing of one displace the other.
   */
  lemma OrderMattersIff(a: seq<Emission>, b: seq<Emission>)
    requires a != [] && b != [] && Disjoint(a, b)
    ensures FamilyOf(a + b) == FamilyOf(b + a) <==> Fits(a[0], b[0].help, b[0].labels.Keys)
  {
    assert (a + b)[0] == a[0] && (b + a)[0] == b[0];
    FirstRegistrationWins(a + b, map[]);
    FirstRegistrationWins(b + a, map[]);
    if Fits(a[0], b[0].help, b[0].labels.Keys) {
      forall labels ensures FirstValue(a + b, a[0].help, labels) == FirstValue(b + a, a[0].help, labels) {
        FirstValueOfConcat(a, b, a[0].help, labels);
        FirstValueOfConcat(b, a, a[0].help, labels);
        FirstValueIsOffered(a, a[0].help, labels);
        FirstValueIsOffered(b, a[0].help, labels);
      }
      SameFamily(a + b, b + a);
    }
  }

  // ----- whole cycles -----

  lemma AllOffersSnoc(results: seq<ProbeResult>, r: ProbeResult, name: string)
    ensures AllOffers(results + [r], name) == AllOffers(results, name) + Offers(r, name)
  {
    assert (results + [r])[..|results|] == results;
  }

  lemma {:induction false} AllOffersOfConcat(a: seq<ProbeResult>, b: seq<ProbeResult>, name: string)
    ensures AllOffers(a + b, name) == AllOffers(a, name) + AllOffers(b, name)
  {
    if b == [] {
      assert a + b == a;
    } else {
      var init, last := b[..|b| - 1], b[|b| - 1];
      assert b == init + [last] && a + b == (a + init) + [last];
      AllOffersOfConcat(a, init, name);
      AllOffersSnoc(a + init, last, name);
      AllOffersSnoc(init, last, name);
    }
  }

  /** All offers for the name, in all batches, have one shape. */
  ghost predicate OneShape(batches: seq<seq<ProbeResult>>, name: string) {
    forall i, j, e, e' ::
      0 <= i < |batches| && 0 <= j < |batches| && e in AllOffers(batches[i], name) && e' in AllOffers(batches[j], name)
      ==> Fits(e, e'.help, e'.labels.Keys)
  }

  ghost predicate PairwiseDisjoint(batches: seq<seq<ProbeResult>>, name: string) {
    forall i, j :: 0 <= i < |batches| && 0 <= j < |batches| && i != j ==>
      Disjoint(AllOffers(batches[i], name), AllOffers(batches[j], name))
  }

  lemma GatheredValueSnoc(
    batches: seq<seq<ProbeResult>>, init: seq<nat>, last: nat, name: string, help: string, labels: Labels)
    requires last < |batches| && forall j :: 0 <= j < |init| ==> init[j] < |batches|
    ensures
      var before := FirstValue(AllOffers(Gather(batches, init), name), help, labels);
      FirstValue(AllOffers(Gather(batches, init + [last]), name), help, labels)
      == if before.Some? then before else FirstValue(AllOffers(batches[last], name), help, labels)
  {
    assert (init + [last])[..|init|] == init;
    AllOffersOfConcat(Gather(batches, init), batches[last], name);
    FirstValueOfConcat(AllOffers(Gather(batches, init), name), AllOffers(batches[last], name), help, labels);
  }

  /** At most one batch has a value for a series; whichever order gathers it, that is the value. */
  lemma {:induction false} GatheredValue(
    batches: seq<seq<ProbeResult>>, order: seq<nat>, name: string, help: string, labels: Labels, k: nat)
    requires PairwiseDisjoint(batches, name) && NoRepeats(order) && k in order
    requires forall j :: 0 <= j < |order| ==> order[j] < |batches|
    requires FirstValue(AllOffers(batches[k], name), help, labels).Some?
    ensures FirstValue(AllOffers(Gather(batches, order), name), help, labels)
         == FirstValue(AllOffers(batches[k], name), help, labels)
    decreases |order|
  {
    var init, last := SplitLast(order, |batches|);
    LastIsNew(init, last);
    GatheredValueSnoc(batches, init, last, name, help, labels);
    FirstValueIsOffered(AllOffers(batches[k], name), help, labels);
    if k == last {
      NoGatheredValue(batches, init, name, help, labels, k);
    } else {
      GatheredValue(batches, init, name, help, labels, k);
    }
  }

  lemma SplitLast(order: seq<nat>, bound: nat) returns (init: seq<nat>, last: nat)
    requires order != [] && forall j :: 0 <= j < |order| ==> order[j] < bound
    ensures order == init + [last] && |init| == |order| - 1
    ensures last < bound && forall j :: 0 <= j < |init| ==> init[j] < bound
    ensures last in order && forall k <- init :: k in order
  {
    init, last := order[..|order| - 1], order[|order| - 1];
  }

  lemma {:induction false} NoGatheredValue(
    batches: seq<seq<ProbeResult>>, order: seq<nat>, name: string, help: string, labels: Labels, k: nat)
    requires PairwiseDisjoint(batches, name) && k !in order && k < |batches|
    requires forall j :: 0 <= j < |order| ==> order[j] < |batches|
    requires exists e <- AllOffers(batches[k], name) :: e.labels == labels
    ensures FirstValue(AllOffers(Gather(batches, order), name), help, labels) == None
    decreases |order|
  {
    if order != [] {
      var init, last := SplitLast(order, |batches|);
      NoGatheredValue(batches, init, name, help, labels, k);
      OtherBatchIsSilent(batches, k, last, name, help, labels);
      GatheredValueSnoc(batches, init, last, name, help, labels);
    }
  }

  lemma OtherBatchIsSilent(
    batches: seq<seq<ProbeResult>>, k: nat, j: nat, name: string, help: string, labels: Labels)
    requires PairwiseDisjoint(batches, name) && k < |batches| && j < |batches| && k != j
    requires exists e <- AllOffers(batches[k], name) :: e.labels == labels
    ensures FirstValue(AllOffers(batches[j], name), help, labels) == None
  {
    FirstValueIsOffered(AllOffers(batches[j], name), help, labels);
    assert Disjoint(AllOffers(batches[k], name), AllOffers(batches[j], name));
  }

  lemma {:induction false} GatheredOffer(batches: seq<seq<ProbeResult>>, order: seq<nat>, name: string, e: Emission)
    requires forall j :: 0 <= j < |order| ==> order[j] < |batches|
    ensures e in AllOffers(Gather(batches, order), name) <==> exists k <- order :: e in AllOffers(batches[k], name)
    decreases |order|
  {
    if order != [] {
      var init, last := SplitLast(order, |batches|);
      GatheredOffer(batches, init, name, e);
      assert (init + [last])[..|init|] == init;
      AllOffersOfConcat(Gather(batches, init), batches[last], name);
    }
  }

  /** A gathered value is some batch's value. */
  lemma {:induction false} SomeBatchGives(
    batches: seq<seq<ProbeResult>>, order: seq<nat>, name: string, help: string, labels: Labels) returns (k: nat)
    requires forall j :: 0 <= j < |order| ==> order[j] < |batches|
    requires FirstValue(AllOffers(Gather(batches, order), name), help, labels).Some?
    ensures k in order && k < |batches| && FirstValue(AllOffers(batches[k], name), help, labels).Some?
    decreases |order|
  {
    var init, last := SplitLast(order, |batches|);
    GatheredValueSnoc(batches, init, last, name, help, labels);
    if FirstValue(AllOffers(Gather(batches, init), name), help, labels).Some? {
      k := SomeBatchGives(batches, init, name, help, labels);
    } else {
      k := last;
    }
  }

  lemma OneWayValue(
    batches: seq<seq<ProbeResult>>, a: seq<nat>, b: seq<nat>, name: string, help: string, labels: Labels)
    requires PairwiseDisjoint(batches, name) && NoRepeats(a) && NoRepeats(b) && (forall x :: x in a ==> x in b)
    requires (forall j :: 0 <= j < |a| ==> a[j] < |batches|) && (forall j :: 0 <= j < |b| ==> b[j] < |batches|)
    requires FirstValue(AllOffers(Gather(batches, a), name), help, labels).Some?
    ensures FirstValue(AllOffers(Gather(batches, b), name), help, labels)
         == FirstValue(AllOffers(Gather(batches, a), name), help, labels)
  {
    var k := SomeBatchGives(batches, a, name, help, labels);
    GatheredValue(batches, a, name, help, labels, k);
    GatheredValue(batches, b, name, help, labels, k);
  }

  ghost predicate Orders(batches: seq<seq<ProbeResult>>, order: seq<nat>) {
    NoRepeats(order) && forall j :: 0 <= j < |order| ==> order[j] < |batches|
  }

  lemma GatheredShape(batches: seq<seq<ProbeResult>>, a: seq<nat>, b: seq<nat>, name: string, e: Emission, e': Emission)
    requires OneShape(batches, name) && Orders(batches, a) && Orders(batches, b)
    requires e in AllOffers(Gather(batches, a), name) && e' in AllOffers(Gather(batches, b), name)
    ensures Fits(e, e'.help, e'.labels.Keys)
  {
    var i := OfferingBatch(batches, a, name, e);
    var j := OfferingBatch(batches, b, name, e');
    assert e in AllOffers(batches[i], name) && e' in AllOffers(batches[j], name);
  }

  lemma OfferingBatch(batches: seq<seq<ProbeResult>>, order: seq<nat>, name: string, e: Emission) returns (k: nat)
    requires Orders(batches, order) && e in AllOffers(Gather(batches, order), name)
    ensures k < |batches| && e in AllOffers(batches[k], name)
  {
    GatheredOffer(batches, order, name, e);
    k :| k in order && e in AllOffers(batches[k], name);
  }

  lemma SameValue(
    batches: seq<seq<ProbeResult>>, a: seq<nat>, b: seq<nat>, name: string, help: string, labels: Labels)
    requires PairwiseDisjoint(batches, name)
    requires Orders(batches, a) && Orders(batches, b) && forall x :: x in a <==> x in b
    ensures FirstValue(AllOffers(Gather(batches, a), name), help, labels)
         == FirstValue(AllOffers(Gather(batches, b), name), help, labels)
  {
    if FirstValue(AllOffers(Gather(batches, a), name), help, labels).Some? {
      OneWayValue(batches, a, b, name, help, labels);
    } else if FirstValue(AllOffers(Gather(batches, b), name), help, labels).Some? {
      OneWayValue(batches, b, a, name, help, labels);
    }
  }

  lemma SameOffers(batches: seq<seq<ProbeResult>>, a: seq<nat>, b: seq<nat>, name: string, e: Emission)
    requires Orders(batches, a) && Orders(batches, b) && forall x :: x in a <==> x in b
    ensures e in AllOffers(Gather(batches, a), name) <==> e in AllOffers(Gather(batches, b), name)
  {
    GatheredOffer(batches, a, name, e);
    GatheredOffer(batches, b, name, e);
  }

  lemma FamilyIgnoresOrder(batches: seq<seq<ProbeResult>>, a: seq<nat>, b: seq<nat>, name: string)
    requires PairwiseDisjoint(batches, name) && OneShape(batches, name)
    requires Orders(batches, a) && Orders(batches, b) && forall x :: x in a <==> x in b
    ensures FamilyOf(AllOffers(Gather(batches, a), name)) == FamilyOf(AllOffers(Gather(batches, b), name))
  {
    var s, t := AllOffers(Gather(batches, a), name), AllOffers(Gather(batches, b), name);
    if s != [] {
      SameOffers(batches, a, b, name, s[0]);
      GatheredShape(batches, a, b, name, s[0], t[0]);
      forall labels ensures FirstValue(s, s[0].help, labels) == FirstValue(t, s[0].help, labels) {
        SameValue(batches, a, b, name, s[0].help, labels);
      }
      SameFamily(s, t);
    } else if t != [] {
      SameOffers(batches, a, b, name, t[0]);
    }
  }

  lemma SameMetrics(m: Metrics, m': Metrics)
    requires forall n :: Lookup(m, n) == Lookup(m', n)
    ensures m == m'
  {
    forall n ensures (n in m <==> n in m') && (n in m ==> m[n] == m'[n]) {
      assert Lookup(m, n) == Lookup(m', n);
    }
  }

  lemma RegistryIgnoresOrder(
    batches: seq<seq<ProbeResult>>, a: seq<nat>, b: seq<nat>, m: Metrics, m': Metrics)
    requires Orders(batches, a) && Orders(batches, b) && forall x :: x in a <==> x in b
    requires forall n :: PairwiseDisjoint(batches, n) && OneShape(batches, n)
    requires IsBuilt(m, Gather(batches, a)) && IsBuilt(m', Gather(batches, b))
    ensures m == m'
  {
    forall n ensures Lookup(m, n) == Lookup(m', n) {
      FamilyIgnoresOrder(batches, a, b, n);
    }
    SameMetrics(m, m');
  }

  // ----- why zones do not share series -----

  /** A prober's extra labels never rename the zone. */
  ghost predicate KeepsZone(r: ProbeResult) {
    "zone" !in r.labels
  }

  lemma {:induction false} OffersCarryZone(results: seq<ProbeResult>, zone: string, name: string)
    requires forall r <- results :: r.zone == zone && KeepsZone(r)
    ensures forall e <- AllOffers(results, name) :: "zone" in e.labels && e.labels["zone"] == zone
  {
    if results != [] {
      OffersCarryZone(results[..|results| - 1], zone, name);
      var r := results[|results| - 1];
      assert KeepsZone(r) && r.zone == zone;
    }
  }

  /** Batches of different zones are disjoint, if no prober renames the zone. */
  lemma ZonesShareNoSeries(a: seq<ProbeResult>, b: seq<ProbeResult>, zone: string, zone': string, name: string)
    requires (forall r <- a :: r.zone == zone && KeepsZone(r)) && (forall r <- b :: r.zone == zone' && KeepsZone(r))
    requires zone != zone'
    ensures Disjoint(AllOffers(a, name), AllOffers(b, name))
  {
    OffersCarryZone(a, zone, name);
    OffersCarryZone(b, zone', name);
  }
}
