/** Two shared predicates and one row of the MX panel: demo/dashboard/panels_status.go, down to the records. */
module MxStatus {
  import opened Wrappers
  import opened PromQL
  import opened StatusExpr
  import opened Results
  import Mx
  import MxCycle
  import R = Runner

  const COUNT: string := "dnshealth_mx_count"
  const RESOLVED: string := "dnshealth_mx_resolved_count"
  const NULL_MX: string := "dnshealth_mx_null_mx"
  const SOA_SERIAL: string := "dnshealth_soa_serial"
  const ZONE: string := "zone"

  function OfZone(metric: string, zone: string): Expr {
    Select(metric, [Matcher(ZONE, zone)])
  }

  /** `mxNoRealTargets`. */
  function NoRealTargets(zone: string): Expr {
    ClampMax(
      Binary(Paren(Test(OfZone(COUNT, zone), Eq, 0)), Add, On([ZONE]), Paren(Test(OfZone(NULL_MX, zone), Eq, 1))), 1)
  }

  function SOANoData(zone: string): Expr {
    Absent(SOA_SERIAL, [Matcher(ZONE, zone)])
  }

  function OrNoData(base: Expr, zone: string): Expr {
    Or(base, AllLabels, SOANoData(zone))
  }

  /** Row B, "all MX targets resolve". */
  function ResolveRow(zone: string): Check {
    Check(
      Or(Paren(Binary(OfZone(COUNT, zone), EqBool, AllLabels, OfZone(RESOLVED, zone))), On([]), Const(0)),
      Some(OrNoData(NoRealTargets(zone), zone)),
      None)
  }

  // ----- series of one zone -----

  function ZoneOnly(zone: string): Labels {
    map[ZONE := zone]
  }

  /** The store holds one series of the metric for the zone. */
  ghost predicate Single(store: Vector, metric: string, zone: string, labels: Labels, x: real) {
    && ZONE in labels && labels[ZONE] == zone
    && Selection(store, metric, [Matcher(ZONE, zone)]) == map[labels := x]
  }

  function Bool(b: bool): real {
    if b then 1.0 else 0.0
  }

  lemma ZoneSignature(labels: Labels, zone: string)
    requires ZONE in labels && labels[ZONE] == zone
    ensures Signature(On([ZONE]), labels - {NAME}) == ZoneOnly(zone)
    ensures Signature(AllLabels, ZoneOnly(zone)) == ZoneOnly(zone)
  {
    assert ZONE != NAME by {
      assert |ZONE| != |NAME|;
    }
  }

  lemma TestSingle(store: Vector, metric: string, zone: string, labels: Labels, x: real, c: nat)
    requires Single(store, metric, zone, labels, x)
    ensures Eval(store, Paren(Test(OfZone(metric, zone), Eq, c))) == Some(map[labels - {NAME} := Bool(x == c as real)])
  {
    var e := OfZone(metric, zone);
    assert Eval(store, e) == Some(map[labels := x]);
    MapOne(labels, x, Against(Eq, c as real));
    ParenIsTransparent(store, Test(e, Eq, c));
  }

  /** The clamped sum is the honest disjunction of its two tests, whenever both series exist. */
  lemma NoRealTargetsIsDisjunction(
    store: Vector, zone: string, countLabels: Labels, count: real, nullLabels: Labels, nullMX: real)
    requires Single(store, COUNT, zone, countLabels, count) && Single(store, NULL_MX, zone, nullLabels, nullMX)
    ensures Eval(store, NoRealTargets(zone)) == Some(map[ZoneOnly(zone) := Bool(count == 0.0 || nullMX == 1.0)])
  {
    var l, r := Paren(Test(OfZone(COUNT, zone), Eq, 0)), Paren(Test(OfZone(NULL_MX, zone), Eq, 1));
    TestSingle(store, COUNT, zone, countLabels, count, 0);
    TestSingle(store, NULL_MX, zone, nullLabels, nullMX, 1);
    ZoneSignature(countLabels, zone);
    ZoneSignature(nullLabels, zone);
    var x, y := Bool(count == 0.0), Bool(nullMX == 1.0);
    MatchOne(countLabels - {NAME}, x, Add, On([ZONE]), nullLabels - {NAME}, y);
    assert Eval(store, Binary(l, Add, On([ZONE]), r)) == Some(map[ZoneOnly(zone) := x + y]);
    MapOne(ZoneOnly(zone), x + y, Clamp(1.0));
  }

  /** The spelling the source warns against: `or` of the two tests is only the first of them. */
  lemma OrOfTestsIsTheFirst(
    store: Vector, zone: string, countLabels: Labels, count: real, nullLabels: Labels, nullMX: real)
    requires Single(store, COUNT, zone, countLabels, count) && Single(store, NULL_MX, zone, nullLabels, nullMX)
    requires countLabels - {NAME} == nullLabels - {NAME}
    ensures
      var isEmpty, isNull := Paren(Test(OfZone(COUNT, zone), Eq, 0)), Paren(Test(OfZone(NULL_MX, zone), Eq, 1));
      Eval(store, Or(isEmpty, AllLabels, isNull)) == Eval(store, isEmpty)
  {
    TestSingle(store, COUNT, zone, countLabels, count, 0);
    TestSingle(store, NULL_MX, zone, nullLabels, nullMX, 1);
    var l: Vector := map[countLabels - {NAME} := Bool(count == 0.0)];
    var r: Vector := map[nullLabels - {NAME} := Bool(nullMX == 1.0)];
    assert countLabels - {NAME} in l;
    assert HasSignature(l, AllLabels, Signature(AllLabels, countLabels - {NAME}));
    UnionShadowed(l, AllLabels, r);
  }

  lemma AbsentOfZone(zone: string)
    ensures AbsentLabels([Matcher(ZONE, zone)]) == ZoneOnly(zone)
  {
    var ms := [Matcher(ZONE, zone)];
    assert ms[0] in Once(ms);
    assert Once(ms) == {ms[0]};
  }

  ghost predicate NoSOA(store: Vector, zone: string) {
    Selection(store, SOA_SERIAL, [Matcher(ZONE, zone)]) == map[]
  }

  /**
   * What `orNoData` adds to a predicate. The comment on it says a zone without SOA data always
   * reads as not applicable; in fact it does exactly unless the predicate itself already has a
   * sample labelled with the zone alone, which then hides the sentinel.
   */
  lemma OrNoDataIff(store: Vector, base: Expr, zone: string, v: Vector)
    requires Eval(store, base) == Some(v)
    ensures Eval(store, OrNoData(base, zone)).Some?
    ensures Truthy(Eval(store, OrNoData(base, zone)).value) <==>
              Truthy(v) || (NoSOA(store, zone) && !HasSignature(v, AllLabels, ZoneOnly(zone)))
  {
    AbsentOfZone(zone);
    ZoneSignature(ZoneOnly(zone), zone);
    var sentinel: Vector := if NoSOA(store, zone) then map[ZoneOnly(zone) := 1.0] else map[];
    assert Eval(store, SOANoData(zone)) == Some(sentinel);
    OrMeans(store, base, AllLabels, SOANoData(zone));
    UnionTruth(v, sentinel, zone);
  }

  lemma UnionTruth(v: Vector, sentinel: Vector, zone: string)
    requires Signature(AllLabels, ZoneOnly(zone)) == ZoneOnly(zone)
    requires sentinel == map[] || sentinel == map[ZoneOnly(zone) := 1.0]
    ensures Truthy(Union(v, AllLabels, sentinel)) <==>
              Truthy(v) || (sentinel != map[] && !HasSignature(v, AllLabels, ZoneOnly(zone)))
  {
    var u := Union(v, AllLabels, sentinel);
    if Truthy(v) {
      var l :| l in v && v[l] >= 1.0;
      assert l in v ==> HasSignature(v, AllLabels, Signature(AllLabels, l));
      assert l in u && u[l] == v[l];
    } else if sentinel != map[] && !HasSignature(v, AllLabels, ZoneOnly(zone)) {
      assert ZoneOnly(zone) in sentinel && ZoneOnly(zone) in u && u[ZoneOnly(zone)] == 1.0;
    }
  }

  /**
   * A consequence for the MX rows: once both MX series of the zone exist, as they do after every
   * cycle that has it configured, the no-data guard is without effect.
   */
  lemma NoDataGuardIsHidden(
    store: Vector, zone: string, countLabels: Labels, count: real, nullLabels: Labels, nullMX: real)
    requires Single(store, COUNT, zone, countLabels, count) && Single(store, NULL_MX, zone, nullLabels, nullMX)
    ensures Eval(store, OrNoData(NoRealTargets(zone), zone)) == Eval(store, NoRealTargets(zone))
  {
    NoRealTargetsIsDisjunction(store, zone, countLabels, count, nullLabels, nullMX);
    AbsentOfZone(zone);
    ZoneSignature(ZoneOnly(zone), zone);
    var v: Vector := map[ZoneOnly(zone) := Bool(count == 0.0 || nullMX == 1.0)];
    assert ZoneOnly(zone) in v;
    assert HasSignature(v, AllLabels, ZoneOnly(zone));
    var sentinel: Vector := if NoSOA(store, zone) then map[ZoneOnly(zone) := 1.0] else map[];
    assert Eval(store, SOANoData(zone)) == Some(sentinel);
    UnionShadowed(v, AllLabels, sentinel);
  }

  // ----- row B -----

  lemma ResolveRowHard(
    store: Vector, zone: string, countLabels: Labels, count: real, resolvedLabels: Labels, resolved: real)
    requires Single(store, COUNT, zone, countLabels, count) && Single(store, RESOLVED, zone, resolvedLabels, resolved)
    requires countLabels - {NAME} == resolvedLabels - {NAME}
    ensures Eval(store, ResolveRow(zone).expr) == Some(map[countLabels - {NAME} := Bool(count == resolved)])
  {
    var k := countLabels - {NAME};
    MatchOne(countLabels, count, EqBool, AllLabels, resolvedLabels, resolved);
    var b := Binary(OfZone(COUNT, zone), EqBool, AllLabels, OfZone(RESOLVED, zone));
    assert Eval(store, OfZone(COUNT, zone)) == Some(map[countLabels := count]);
    assert Eval(store, OfZone(RESOLVED, zone)) == Some(map[resolvedLabels := resolved]);
    assert Eval(store, b) == Some(map[k := Bool(count == resolved)]);
    ParenIsTransparent(store, b);
    OrMeans(store, Paren(b), On([]), Const(0));
    OrZeroIsHidden(k, Bool(count == resolved));
    assert Eval(store, Const(0)) == Some(One(0.0));
  }

  /** `or on() vector(0)` adds nothing to a sample that is there. */
  lemma OrZeroIsHidden(k: Labels, x: real)
    ensures Union(map[k := x], On([]), One(0.0)) == map[k := x]
  {
    var v: Vector := map[k := x];
    assert k in v;
    assert Signature(On([]), k) == map[] == Signature(On([]), NO_LABELS);
    assert HasSignature(v, On([]), Signature(On([]), NO_LABELS));
    UnionShadowed(v, On([]), One(0.0));
  }

  lemma TruthyOne(k: Labels, b: bool)
    ensures var v: Vector := map[k := Bool(b)]; (Truthy(v) <==> b) && Countable(v)
  {
    var v: Vector := map[k := Bool(b)];
    assert k in v;
    assert (0.0).Floor == 0 && (1.0).Floor == 1;
  }

  /** Row B in terms of the three published values. */
  lemma ResolveRowShows(
    store: Vector, zone: string, countLabels: Labels, count: real, resolvedLabels: Labels, resolved: real,
    nullLabels: Labels, nullMX: real)
    requires Single(store, COUNT, zone, countLabels, count) && Single(store, RESOLVED, zone, resolvedLabels, resolved)
    requires Single(store, NULL_MX, zone, nullLabels, nullMX)
    requires countLabels - {NAME} == resolvedLabels - {NAME}
    ensures Eval(store, Compose(ResolveRow(zone)))
         == Some(One(Code(StatusOf(count == resolved, count == 0.0 || nullMX == 1.0, false))))
  {
    ResolveRowHard(store, zone, countLabels, count, resolvedLabels, resolved);
    NoDataGuardIsHidden(store, zone, countLabels, count, nullLabels, nullMX);
    NoRealTargetsIsDisjunction(store, zone, countLabels, count, nullLabels, nullMX);
    var hard: Vector := map[countLabels - {NAME} := Bool(count == resolved)];
    var na: Vector := map[ZoneOnly(zone) := Bool(count == 0.0 || nullMX == 1.0)];
    TruthyOne(countLabels - {NAME}, count == resolved);
    TruthyOne(ZoneOnly(zone), count == 0.0 || nullMX == 1.0);
    assert Countable(map[]) && !Truthy(map[]);
    ComposedRowShowsStatus(store, ResolveRow(zone), hard, na, map[]);
  }

  /**
   * From the zone's MX records to the cell: N/A exactly for no records or a sole Null MX; else
   * PASS exactly if no target repeats, none is the root and all of them resolve; else FAIL.
   */
  lemma ResolveRowIsExact(
    o: Mx.Oracles, g: R.Gauges, zones: seq<string>, results: seq<ProbeResult>, zone: string, ip: string,
    mxs: seq<Mx.Exchange>, store: Vector, countLabels: Labels, resolvedLabels: Labels, nullLabels: Labels)
    requires R.Aggregates(g, zones, results) && zone in zones && MxCycle.Observed(o, results, zone, ip, mxs)
    requires [zone] in g.mxCount && Single(store, COUNT, zone, countLabels, g.mxCount[[zone]] as real)
    requires [zone] in g.mxResolved && Single(store, RESOLVED, zone, resolvedLabels, g.mxResolved[[zone]] as real)
    requires [zone] in g.nullMX && Single(store, NULL_MX, zone, nullLabels, g.nullMX[[zone]] as real)
    requires countLabels - {NAME} == resolvedLabels - {NAME}
    ensures Eval(store, Compose(ResolveRow(zone))) == Some(One(Code(
              if mxs == [] || mxs == [Mx.Exchange(0, ".")] then NA
              else if MxCycle.DistinctTargets(mxs)
                      && forall x <- mxs :: x.target != "." && Mx.HasAddress(o, x.target) then PASS
              else FAIL)))
  {
    MxCycle.PublishedCounts(o, g, zones, results, zone, ip, mxs);
    MxCycle.ResolvedEqualsCountIff(o, g, zones, results, zone, ip, mxs);
    MxCycle.NullMXIsExact(o, g, zones, results, zone, ip, mxs);
    ResolveRowShows(store, zone, countLabels, g.mxCount[[zone]] as real, resolvedLabels, g.mxResolved[[zone]] as real,
                    nullLabels, g.nullMX[[zone]] as real);
  }
}
