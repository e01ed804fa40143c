/** From an MX answer to the published gauges: prober/mx.go through cycle/runner.go. */
module MxCycle {
  import opened Wrappers
  import opened Results
  import opened Sequences
  import opened Mx
  import opened ZoneView
  import ProbeLoop
  import R = Runner
  import Priority

  predicate IsMXKind(kind: R.Kind) {
    kind in {R.MXCount, R.MXResolved, R.MXCname, R.MXSyntaxValid, R.Records}
  }

  // ----- what one zone's MX results add up to -----

  /** An info result is read back as the record it was made from. */
  lemma InfoReadsBack(zone: string, x: Exchange)
    ensures R.RecordOf(Info(zone, x)) == Some(R.MXRecord(zone, x.target, x.preference))
  {
    Priority.PaddedParsesBack(x.preference);
  }

  /** The targets a validity metric is 1 for. */
  ghost function Holding(o: Oracles, mxs: seq<Exchange>, kind: R.Kind): set<string> {
    set t <- Targets(mxs) | Holds(o, t, kind)
  }

  ghost predicate Holds(o: Oracles, t: string, kind: R.Kind) {
    match kind
    case MXResolved => t != ROOT && Resolves(o, t)
    case MXCname => t != ROOT && IsAlias(o, t)
    case MXSyntaxValid => t == ROOT || o.validSyntax(t)
    case _ => false
  }

  predicate IsValidityKind(kind: R.Kind) {
    kind in {R.MXResolved, R.MXCname, R.MXSyntaxValid}
  }

  lemma ResultsCount(o: Oracles, zone: string, x: Exchange, kind: R.Kind)
    requires IsMXKind(kind)
    ensures R.LabelsOf(kind, Info(zone, x)) == if IsValidityKind(kind) then None else Some([zone])
    ensures R.LabelsOf(kind, Validity(o, zone, x.target))
         == if IsValidityKind(kind) && Holds(o, x.target, kind) then Some([zone]) else None
  {
    InfoReadsBack(zone, x);
  }

  lemma {:induction false} RecordResultsCount(o: Oracles, zone: string, mxs: seq<Exchange>, kind: R.Kind)
    requires IsMXKind(kind)
    ensures R.Count(kind, [zone], RecordResults(o, zone, mxs))
         == if IsValidityKind(kind) then |Holding(o, mxs, kind)| else |mxs|
  {
    if mxs == [] {
      assert Holding(o, mxs, kind) == {};
    } else {
      var init, x := mxs[..|mxs| - 1], mxs[|mxs| - 1];
      assert mxs == init + [x];
      RecordResultsCount(o, zone, init, kind);
      ResultsCount(o, zone, x, kind);
      OneRecordCounts(o, zone, init, x, kind);
      HoldingSnoc(o, init, x, kind);
    }
  }

  /** What one more record adds to a series. */
  lemma OneRecordCounts(o: Oracles, zone: string, mxs: seq<Exchange>, x: Exchange, kind: R.Kind)
    requires IsMXKind(kind)
    ensures
      var labels, validity := [zone], Validity(o, zone, x.target);
      R.Count(kind, labels, RecordResults(o, zone, mxs + [x]))
      == R.Count(kind, labels, RecordResults(o, zone, mxs))
         + (if R.LabelsOf(kind, Info(zone, x)) == Some(labels) then 1 else 0)
         + if x.target !in Targets(mxs) && R.LabelsOf(kind, validity) == Some(labels) then 1 else 0
  {
    var labels, before, info := [zone], RecordResults(o, zone, mxs), Info(zone, x);
    assert (mxs + [x])[..|mxs|] == mxs;
    R.CountSnoc(kind, labels, before, info);
    if x.target in Targets(mxs) {
      assert RecordResults(o, zone, mxs + [x]) == before + [info];
    } else {
      R.CountSnoc(kind, labels, before + [info], Validity(o, zone, x.target));
    }
  }

  lemma HoldingSnoc(o: Oracles, mxs: seq<Exchange>, x: Exchange, kind: R.Kind)
    ensures |Holding(o, mxs + [x], kind)|
         == |Holding(o, mxs, kind)| + if x.target !in Targets(mxs) && Holds(o, x.target, kind) then 1 else 0
  {
    TargetsSnoc(mxs, x);
    var before, after := Holding(o, mxs, kind), Holding(o, mxs + [x], kind);
    assert after == if Holds(o, x.target, kind) then before + {x.target} else before;
    assert x.target in before <==> x.target in Targets(mxs) && Holds(o, x.target, kind);
    assert x.target in before ==> before + {x.target} == before;
  }

  lemma TargetsSnoc(mxs: seq<Exchange>, x: Exchange)
    ensures Targets(mxs + [x]) == Targets(mxs) + {x.target}
  {
    assert forall y :: y in mxs + [x] <==> y in mxs || y == x;
  }

  lemma {:induction false} RecordResultsRecords(o: Oracles, zone: string, mxs: seq<Exchange>, t: string, p: nat)
    ensures R.HasRecord(RecordResults(o, zone, mxs), R.MXRecord(zone, t, p))
       <==> exists x <- mxs :: x.target == t && x.preference == p
  {
    if mxs != [] {
      var init, x := mxs[..|mxs| - 1], mxs[|mxs| - 1];
      assert mxs == init + [x];
      RecordResultsRecords(o, zone, init, t, p);
      InfoReadsBack(zone, x);
      var before, mine := RecordResults(o, zone, init), RecordResults(o, zone, mxs);
      assert forall r :: r in mine <==>
        r in before || r == Info(zone, x) || (x.target !in Targets(init) && r == Validity(o, zone, x.target));
    }
  }

  // ----- the published values -----

  /** Some record for this target has the least preference of all. */
  ghost predicate Preferred(mxs: seq<Exchange>, target: string) {
    exists x <- mxs :: x.target == target && forall y <- mxs :: x.preference <= y.preference
  }

  ghost predicate Lists(mxs: seq<Exchange>, target: string, preference: nat) {
    exists x <- mxs :: x.target == target && x.preference == preference
  }

  ghost predicate DistinctTargets(mxs: seq<Exchange>) {
    forall i, j :: 0 <= i < j < |mxs| ==> mxs[i].target != mxs[j].target
  }

  lemma {:induction false} TargetsCount(mxs: seq<Exchange>)
    ensures |Targets(mxs)| <= |mxs|
    ensures |Targets(mxs)| == |mxs| <==> DistinctTargets(mxs)
  {
    if mxs != [] {
      var init, x := mxs[..|mxs| - 1], mxs[|mxs| - 1];
      assert mxs == init + [x];
      TargetsCount(init);
      TargetsSnoc(init, x);
      DistinctSnoc(init, x);
    }
  }

  lemma DistinctSnoc(mxs: seq<Exchange>, x: Exchange)
    ensures DistinctTargets(mxs + [x]) <==> DistinctTargets(mxs) && x.target !in Targets(mxs)
  {
    var all := mxs + [x];
    if x.target in Targets(mxs) {
      var y :| y in mxs && y.target == x.target;
      var i :| 0 <= i < |mxs| && mxs[i] == y;
      assert all[i].target == all[|mxs|].target;
    }
    if DistinctTargets(all) {
      forall i, j | 0 <= i < j < |mxs| ensures mxs[i].target != mxs[j].target {
        assert all[i] == mxs[i] && all[j] == mxs[j];
      }
    }
    assert forall i :: 0 <= i < |mxs| ==> mxs[i].target in Targets(mxs);
  }

  lemma SubsetOfFullSize(a: set<string>, b: set<string>)
    requires a <= b
    ensures |a| <= |b| && (|a| == |b| <==> a == b)
  {
    assert b == a + (b - a);
    assert |b| == |a| + |b - a|;
  }

  /** What a cycle holds of a zone whose MX query was answered with `mxs`, among everything else. */
  ghost predicate Observed(o: Oracles, results: seq<ProbeResult>, zone: string, ip: string, mxs: seq<Exchange>) {
    multiset(Own(results, zone, "mx")) == multiset(ZoneResults(o, zone, Answered(ip, mxs)))
  }

  /**
   * The hypothesis of what follows is met by every cycle: if the MX query of a configured zone was
   * answered, the gathered results hold what the prober made of it, under every schedule and in
   * every order of the probers.
   */
  lemma EveryCycleObserves(
    o: Oracles, outcomes: seq<ProbeLoop.Outcomes>, zones: seq<string>, results: seq<ProbeResult>, k: nat,
    ip: string, mxs: seq<Exchange>)
    requires ProbeLoop.Gathers(outcomes, zones, results) && NoRepeats(zones) && k < |zones| && k < |outcomes|
    requires "mx" in outcomes[k] && outcomes[k]["mx"] == Success(ZoneResults(o, zones[k], Answered(ip, mxs)))
    ensures Observed(o, results, zones[k], ip, mxs)
  {
    var batches, run := ProbeLoop.CycleOf(outcomes, zones, results);
    ProbeLoop.CycleKeepsEachCheckWhole(outcomes, zones, batches, run, k, "mx");
  }

  lemma OwnCount(kind: R.Kind, results: seq<ProbeResult>, zone: string)
    requires IsMXKind(kind)
    ensures R.Count(kind, [zone], results) == R.Count(kind, [zone], Own(results, zone, "mx"))
  {
    CountIsOwn(kind, [zone], results);
  }

  lemma BaseCountsNowhere(zone: string, ip: string, kind: R.Kind)
    requires IsMXKind(kind)
    ensures R.Count(kind, [zone], [Base(zone, ip, true, false)]) == 0
  {
    CountOfOne(kind, [zone], Base(zone, ip, true, false));
  }

  lemma ObservedCount(o: Oracles, results: seq<ProbeResult>, zone: string, ip: string, mxs: seq<Exchange>, kind: R.Kind)
    requires Observed(o, results, zone, ip, mxs) && IsMXKind(kind)
    ensures R.Count(kind, [zone], results) == if IsValidityKind(kind) then |Holding(o, mxs, kind)| else |mxs|
  {
    var labels, head, rest := [zone], [Base(zone, ip, true, false)], RecordResults(o, zone, mxs);
    OwnCount(kind, results, zone);
    R.CountIgnoresOrder(kind, labels, Own(results, zone, "mx"), head + rest);
    CountOfConcat(kind, labels, head, rest);
    BaseCountsNowhere(zone, ip, kind);
    RecordResultsCount(o, zone, mxs, kind);
  }

  lemma ObservedRecord(
    o: Oracles, results: seq<ProbeResult>, zone: string, ip: string, mxs: seq<Exchange>, t: string, p: nat)
    requires Observed(o, results, zone, ip, mxs)
    ensures R.HasRecord(results, R.MXRecord(zone, t, p)) <==> Lists(mxs, t, p)
  {
    var head, rest := [Base(zone, ip, true, false)], RecordResults(o, zone, mxs);
    RecordsAreOwn(results, R.MXRecord(zone, t, p));
    R.RecordsIgnoreOrder(Own(results, zone, "mx"), head + rest);
    assert forall r :: r in head + rest <==> r == head[0] || r in rest;
    RecordResultsRecords(o, zone, mxs, t, p);
  }

  /** The counts: records, and distinct targets that resolve, are aliases or are well-formed. */
  lemma PublishedCounts(
    o: Oracles, g: R.Gauges, zones: seq<string>, results: seq<ProbeResult>, zone: string, ip: string,
    mxs: seq<Exchange>)
    requires R.Aggregates(g, zones, results) && zone in zones && Observed(o, results, zone, ip, mxs)
    ensures [zone] in g.mxCount && g.mxCount[[zone]] == |mxs|
    ensures [zone] in g.mxResolved
         && g.mxResolved[[zone]] == |set x <- mxs | x.target != "." && HasAddress(o, x.target) :: x.target|
    ensures [zone] in g.mxCname
         && g.mxCname[[zone]] == |set x <- mxs | x.target != "." && o.cname(x.target) == Success(true) :: x.target|
    ensures [zone] in g.mxSyntaxValid
         && g.mxSyntaxValid[[zone]] == |set x <- mxs | x.target == "." || o.validSyntax(x.target) :: x.target|
  {
    GaugeIsCount(o, g.mxCount, zones, results, zone, ip, mxs, R.MXCount);
    GaugeIsCount(o, g.mxResolved, zones, results, zone, ip, mxs, R.MXResolved);
    GaugeIsCount(o, g.mxCname, zones, results, zone, ip, mxs, R.MXCname);
    GaugeIsCount(o, g.mxSyntaxValid, zones, results, zone, ip, mxs, R.MXSyntaxValid);
    HoldingMeans(o, mxs);
  }

  lemma GaugeIsCount(
    o: Oracles, v: R.Vector, zones: seq<string>, results: seq<ProbeResult>, zone: string, ip: string,
    mxs: seq<Exchange>, kind: R.Kind)
    requires R.Counts(v, kind, R.PerZone(zones), results) && IsMXKind(kind)
    requires zone in zones && Observed(o, results, zone, ip, mxs)
    ensures [zone] in v && v[[zone]] == if IsValidityKind(kind) then |Holding(o, mxs, kind)| else |mxs|
  {
    ObservedCount(o, results, zone, ip, mxs, kind);
    assert [zone] in R.PerZone(zones);
  }

  lemma HoldingMeans(o: Oracles, mxs: seq<Exchange>)
    ensures Holding(o, mxs, R.MXResolved) == set x <- mxs | x.target != "." && HasAddress(o, x.target) :: x.target
    ensures Holding(o, mxs, R.MXCname)
         == set x <- mxs | x.target != "." && o.cname(x.target) == Success(true) :: x.target
    ensures Holding(o, mxs, R.MXSyntaxValid) == set x <- mxs | x.target == "." || o.validSyntax(x.target) :: x.target
  {
    forall t ensures Resolves(o, t) <==> HasAddress(o, t) {
      ResolvesIff(o, t);
    }
  }

  /**
   * When the dashboard's "all MX targets resolve" test, resolved count = count, is met: not when
   * every target resolves, but when moreover no target is repeated and none is the null target.
   */
  lemma ResolvedEqualsCountIff(
    o: Oracles, g: R.Gauges, zones: seq<string>, results: seq<ProbeResult>, zone: string, ip: string,
    mxs: seq<Exchange>)
    requires R.Aggregates(g, zones, results) && zone in zones && Observed(o, results, zone, ip, mxs)
    ensures [zone] in g.mxCount && [zone] in g.mxResolved
    ensures g.mxResolved[[zone]] == g.mxCount[[zone]]
       <==> DistinctTargets(mxs) && forall x <- mxs :: x.target != "." && HasAddress(o, x.target)
  {
    PublishedCounts(o, g, zones, results, zone, ip, mxs);
    var resolving := set x <- mxs | x.target != "." && HasAddress(o, x.target) :: x.target;
    SubsetOfFullSize(resolving, Targets(mxs));
    TargetsCount(mxs);
    assert resolving == Targets(mxs) <==> forall x <- mxs :: x.target != "." && HasAddress(o, x.target) by {
      if resolving == Targets(mxs) {
        forall x | x in mxs ensures x.target != "." && HasAddress(o, x.target) {
          assert x.target in Targets(mxs);
        }
      }
    }
  }

  /** Null MX, as section 3 of RFC 7505 has it: the only record, preference 0, target the root. */
  lemma NullMXIsExact(
    o: Oracles, g: R.Gauges, zones: seq<string>, results: seq<ProbeResult>, zone: string, ip: string,
    mxs: seq<Exchange>)
    requires R.Aggregates(g, zones, results) && zone in zones && Observed(o, results, zone, ip, mxs)
    ensures [zone] in g.nullMX && (g.nullMX[[zone]] == 1 <==> mxs == [Exchange(0, ROOT)])
    ensures [zone] in g.hasNullMXRR && (g.hasNullMXRR[[zone]] == 1 <==> Exchange(0, ROOT) in mxs)
  {
    ObservedCount(o, results, zone, ip, mxs, R.Records);
    ObservedRecord(o, results, zone, ip, mxs, ROOT, 0);
    assert (exists x <- mxs :: x.target == ROOT && x.preference == 0) <==> Exchange(0, ROOT) in mxs by {
      if x :| x in mxs && x.target == ROOT && x.preference == 0 {
        assert x == Exchange(0, ROOT);
      }
    }
    assert R.Flagged(results, zone, false) <==> Exchange(0, ROOT) in mxs;
    assert R.Flagged(results, zone, true) <==> Exchange(0, ROOT) in mxs && |mxs| == 1;
    assert |mxs| == 1 ==> mxs == [mxs[0]];
  }

  /**
   * Each distinct target has exactly one is_primary value; it is 1 exactly for the targets of
   * least-preference records, of which a zone with records has at least one.
   */
  lemma PrimariesAreExact(
    o: Oracles, g: R.Gauges, zones: seq<string>, results: seq<ProbeResult>, zone: string, ip: string,
    mxs: seq<Exchange>)
    requires R.Aggregates(g, zones, results) && Observed(o, results, zone, ip, mxs)
    ensures forall t :: [zone, t] in g.isPrimary <==> t in Targets(mxs)
    ensures forall t <- Targets(mxs) :: g.isPrimary[[zone, t]] == if Preferred(mxs, t) then 1 else 0
    ensures mxs != [] ==> exists t <- Targets(mxs) :: g.isPrimary[[zone, t]] == 1
  {
    forall t, p ensures R.HasRecord(results, R.MXRecord(zone, t, p)) <==> Lists(mxs, t, p) {
      ObservedRecord(o, results, zone, ip, mxs, t, p);
    }
    forall t ensures [zone, t] in g.isPrimary <==> t in Targets(mxs) {
      TargetIsPublished(g, results, zone, mxs, t);
    }
    forall t | t in Targets(mxs) ensures g.isPrimary[[zone, t]] == if Preferred(mxs, t) then 1 else 0 {
      PrimaryIsPreferred(results, zone, mxs, t);
      assert [zone, t] in g.isPrimary;
    }
    if mxs != [] {
      var x := LeastPreference(mxs);
      assert x.target in Targets(mxs) && Preferred(mxs, x.target);
    }
  }

  lemma TargetIsPublished(g: R.Gauges, results: seq<ProbeResult>, zone: string, mxs: seq<Exchange>, t: string)
    requires R.Primaries(g.isPrimary, results)
    requires forall t, p :: R.HasRecord(results, R.MXRecord(zone, t, p)) <==> Lists(mxs, t, p)
    ensures [zone, t] in g.isPrimary <==> t in Targets(mxs)
  {
    assert R.HasTarget(results, zone, t) <==> t in Targets(mxs) by {
      if t in Targets(mxs) {
        var x :| x in mxs && x.target == t;
        assert R.HasRecord(results, R.MXRecord(zone, t, x.preference));
      }
    }
    if [zone, t] in g.isPrimary {
      var z, u :| [zone, t] == [z, u] && R.HasTarget(results, z, u);
      assert z == [z, u][0] == zone && u == [z, u][1] == t;
    }
  }

  lemma PrimaryIsPreferred(results: seq<ProbeResult>, zone: string, mxs: seq<Exchange>, t: string)
    requires forall t, p :: R.HasRecord(results, R.MXRecord(zone, t, p)) <==> Lists(mxs, t, p)
    ensures R.IsPrimary(results, zone, t) <==> Preferred(mxs, t)
  {
    if R.IsPrimary(results, zone, t) {
      var p :| R.HasRecord(results, R.MXRecord(zone, t, p))
               && forall u, q :: R.HasRecord(results, R.MXRecord(zone, u, q)) ==> p <= q;
      var x :| x in mxs && x.target == t && x.preference == p;
      forall y | y in mxs ensures x.preference <= y.preference {
        assert R.HasRecord(results, R.MXRecord(zone, y.target, y.preference));
      }
    }
    if Preferred(mxs, t) {
      var x :| x in mxs && x.target == t && forall y <- mxs :: x.preference <= y.preference;
      assert R.HasRecord(results, R.MXRecord(zone, t, x.preference));
    }
  }

  lemma {:induction false} LeastPreference(mxs: seq<Exchange>) returns (x: Exchange)
    requires mxs != []
    ensures x in mxs && forall y <- mxs :: x.preference <= y.preference
  {
    var init, last := mxs[..|mxs| - 1], mxs[|mxs| - 1];
    assert mxs == init + [last];
    x := last;
    if init != [] {
      var y := LeastPreference(init);
      if y.preference <= last.preference {
        x := y;
      }
    }
  }
}
