/** The aggregation half of a probe cycle: cycle/runner.go, `Run` after `wg.Wait()`. */
module Runner {
  import opened Wrappers
  import opened Results
  import opened Sequences
  import Priority

  // ----- what a result adds to which series -----

  /** The counted series of one cycle. */
  datatype Kind = Classification | MXCount | MXResolved | MXCname | MXSyntaxValid | Queries | Timeouts | Records

  /** A gauge or counter vector: label values to value. */
  type Vector = map<seq<string>, nat>

  /** An MX record as the cycle reads it back from the labels. */
  datatype MXRecord = MXRecord(zone: string, target: string, priority: nat)

  predicate IsMXInfo(r: ProbeResult) {
    r.check == "mx" && "mx_info" in r.metrics
  }

  /** The record of an info result; None when the priority label is missing or unreadable. */
  function RecordOf(r: ProbeResult): Option<MXRecord> {
    if !IsMXInfo(r) || "priority" !in r.labels then None
    else match Priority.Parse(r.labels["priority"])
      case None => None
      case Some(p) => Some(MXRecord(r.zone, if "target" in r.labels then r.labels["target"] else "", p))
  }

  /** The loop body is left early by an info result without a record. */
  predicate Reads(r: ProbeResult, metric: string) {
    r.check == "mx" && (IsMXInfo(r) ==> RecordOf(r).Some?) && metric in r.metrics && r.metrics[metric] == 1.0
  }

  /** The label values of the series one result increments. */
  function LabelsOf(kind: Kind, r: ProbeResult): Option<seq<string>> {
    match kind
    case Classification =>
      if r.check == "ns_classification" && "classification" in r.labels
      then Some([r.zone, r.labels["classification"]]) else None
    case MXCount => if IsMXInfo(r) then Some([r.zone]) else None
    case MXResolved => if Reads(r, "mx_resolves") then Some([r.zone]) else None
    case MXCname => if Reads(r, "mx_is_cname") then Some([r.zone]) else None
    case MXSyntaxValid => if Reads(r, "mx_syntax_valid") then Some([r.zone]) else None
    case Queries => if r.ip != "" then Some([r.ip]) else None
    case Timeouts => if r.ip != "" && r.timedOut then Some([r.ip]) else None
    case Records => if RecordOf(r).Some? then Some([r.zone]) else None
  }

  /** How many results increment a series. */
  function Count(kind: Kind, labels: seq<string>, results: seq<ProbeResult>): nat {
    if results == [] then 0
    else
      Count(kind, labels, results[..|results| - 1])
      + if LabelsOf(kind, results[|results| - 1]) == Some(labels) then 1 else 0
  }

  lemma CountSnoc(kind: Kind, labels: seq<string>, results: seq<ProbeResult>, r: ProbeResult)
    ensures Count(kind, labels, results + [r])
         == Count(kind, labels, results) + if LabelsOf(kind, r) == Some(labels) then 1 else 0
  {
    assert (results + [r])[..|results|] == results;
  }

  function QueryTime(ip: string, results: seq<ProbeResult>): real {
    if results == [] then 0.0
    else
      QueryTime(ip, results[..|results| - 1])
      + if ip != "" && results[|results| - 1].ip == ip then results[|results| - 1].duration else 0.0
  }

  ghost predicate HasRecord(results: seq<ProbeResult>, rec: MXRecord) {
    exists r <- results :: RecordOf(r) == Some(rec)
  }

  // ----- the published values, stated without the program -----

  function ValueAt(v: Vector, labels: seq<string>): nat {
    if labels in v then v[labels] else 0
  }

  /** A counted gauge: initialised at `zeros`, and otherwise present only where something was counted. */
  ghost predicate Counts(v: Vector, kind: Kind, zeros: set<seq<string>>, results: seq<ProbeResult>) {
    forall labels ::
      && (labels in v <==> labels in zeros || Count(kind, labels, results) > 0)
      && (labels in v ==> v[labels] == Count(kind, labels, results))
  }

  /** A counter that outlives cycles. */
  ghost predicate Advanced(before: Vector, after: Vector, kind: Kind, results: seq<ProbeResult>) {
    forall labels ::
      && (labels in after <==> labels in before || Count(kind, labels, results) > 0)
      && ValueAt(after, labels) == ValueAt(before, labels) + Count(kind, labels, results)
  }

  ghost predicate AdvancedTime(before: map<string, real>, after: map<string, real>, results: seq<ProbeResult>) {
    forall ip ::
      && (ip in after <==> ip in before || Count(Queries, [ip], results) > 0)
      && (ip in after ==> after[ip] == (if ip in before then before[ip] else 0.0) + QueryTime(ip, results))
  }

  function PerZone(zones: seq<string>): set<seq<string>> {
    set z <- zones :: [z]
  }

  function PerClass(zones: seq<string>): set<seq<string>> {
    set z <- zones, c <- {"parent-only", "self-only", "both"} :: [z, c]
  }

  /** Some record of the zone is the "0 ." of RFC 7505. */
  ghost predicate HasNullRR(results: seq<ProbeResult>, zone: string) {
    HasRecord(results, MXRecord(zone, ".", 0))
  }

  /** A 0/1 gauge per zone. */
  ghost predicate Flags(v: Vector, zones: seq<string>, results: seq<ProbeResult>, soleOnly: bool) {
    forall labels ::
      && (labels in v <==> exists z :: labels == [z] && (z in zones || Flagged(results, z, soleOnly)))
      && forall z :: labels == [z] && labels in v ==> v[labels] == if Flagged(results, z, soleOnly) then 1 else 0
  }

  ghost predicate Flagged(results: seq<ProbeResult>, zone: string, soleOnly: bool) {
    HasNullRR(results, zone) && (soleOnly ==> Count(Records, [zone], results) == 1)
  }

  /** Some record for the target has the least priority of the zone. */
  ghost predicate IsPrimary(results: seq<ProbeResult>, zone: string, target: string) {
    exists p :: HasRecord(results, MXRecord(zone, target, p))
                && forall t, q :: HasRecord(results, MXRecord(zone, t, q)) ==> p <= q
  }

  ghost predicate HasTarget(results: seq<ProbeResult>, zone: string, target: string) {
    exists p :: HasRecord(results, MXRecord(zone, target, p))
  }

  ghost predicate Primaries(v: Vector, results: seq<ProbeResult>) {
    forall labels ::
      && (labels in v <==> exists z, t :: labels == [z, t] && HasTarget(results, z, t))
      && forall z, t :: labels == [z, t] && labels in v ==> v[labels] == if IsPrimary(results, z, t) then 1 else 0
  }

  /** The per-cycle gauges of the permanent registry that come from results. */
  datatype Gauges = Gauges(
    classification: Vector, mxCount: Vector, mxResolved: Vector, mxCname: Vector, mxSyntaxValid: Vector,
    nullMX: Vector, hasNullMXRR: Vector, isPrimary: Vector)

  ghost predicate Aggregates(g: Gauges, zones: seq<string>, results: seq<ProbeResult>) {
    && Counts(g.classification, Classification, PerClass(zones), results)
    && Counts(g.mxCount, MXCount, PerZone(zones), results)
    && Counts(g.mxResolved, MXResolved, PerZone(zones), results)
    && Counts(g.mxCname, MXCname, PerZone(zones), results)
    && Counts(g.mxSyntaxValid, MXSyntaxValid, PerZone(zones), results)
    && Flags(g.nullMX, zones, results, true)
    && Flags(g.hasNullMXRR, zones, results, false)
    && Primaries(g.isPrimary, results)
  }

  // ----- order independence -----

  lemma {:induction false} CountRemove(kind: Kind, labels: seq<string>, results: seq<ProbeResult>, i: nat)
    requires i < |results|
    ensures Count(kind, labels, results) == Count(kind, labels, results[..i] + results[i + 1..])
                                            + if LabelsOf(kind, results[i]) == Some(labels) then 1 else 0
    decreases |results|
  {
    var n := |results| - 1;
    if i < n {
      CountRemove(kind, labels, results[..n], i);
      var rest := results[..i] + results[i + 1..];
      assert rest[..n - 1] == results[..n][..i] + results[..n][i + 1..];
    } else {
      assert results[..i] + results[i + 1..] == results[..n];
    }
  }

  lemma {:induction false} TimeRemove(ip: string, results: seq<ProbeResult>, i: nat)
    requires i < |results|
    ensures QueryTime(ip, results) == QueryTime(ip, results[..i] + results[i + 1..])
                                      + if ip != "" && results[i].ip == ip then results[i].duration else 0.0
    decreases |results|
  {
    var n := |results| - 1;
    if i < n {
      TimeRemove(ip, results[..n], i);
      var rest := results[..i] + results[i + 1..];
      assert rest[..n - 1] == results[..n][..i] + results[..n][i + 1..];
    } else {
      assert results[..i] + results[i + 1..] == results[..n];
    }
  }

  lemma {:induction false} CountIgnoresOrder(kind: Kind, labels: seq<string>, a: seq<ProbeResult>, b: seq<ProbeResult>)
    requires multiset(a) == multiset(b)
    ensures Count(kind, labels, a) == Count(kind, labels, b)
    decreases |a|
  {
    if a == [] {
      assert |multiset(b)| == 0;
    } else {
      var i := FindInPermutation(a, b);
      CountIgnoresOrder(kind, labels, a[..|a| - 1], b[..i] + b[i + 1..]);
      CountRemove(kind, labels, b, i);
    }
  }

  lemma {:induction false} TimeIgnoresOrder(ip: string, a: seq<ProbeResult>, b: seq<ProbeResult>)
    requires multiset(a) == multiset(b)
    ensures QueryTime(ip, a) == QueryTime(ip, b)
    decreases |a|
  {
    if a == [] {
      assert |multiset(b)| == 0;
    } else {
      var i := FindInPermutation(a, b);
      TimeIgnoresOrder(ip, a[..|a| - 1], b[..i] + b[i + 1..]);
      TimeRemove(ip, b, i);
    }
  }

  lemma RecordsIgnoreOrder(a: seq<ProbeResult>, b: seq<ProbeResult>)
    requires multiset(a) == multiset(b)
    ensures forall rec :: HasRecord(a, rec) <==> HasRecord(b, rec)
  {
    forall r ensures r in a <==> r in b {
      assert r in a <==> r in multiset(a);
      assert r in b <==> r in multiset(b);
    }
  }

  /** Gauges that meet the description for one order meet it for every order. */
  lemma AggregatesIgnoresOrder(g: Gauges, zones: seq<string>, a: seq<ProbeResult>, b: seq<ProbeResult>)
    requires multiset(a) == multiset(b) && Aggregates(g, zones, a)
    ensures Aggregates(g, zones, b)
  {
    forall kind, labels ensures Count(kind, labels, a) == Count(kind, labels, b) {
      CountIgnoresOrder(kind, labels, a, b);
    }
    RecordsIgnoreOrder(a, b);
    forall z, soleOnly ensures Flagged(a, z, soleOnly) <==> Flagged(b, z, soleOnly) {
    }
    forall z, t ensures HasTarget(a, z, t) <==> HasTarget(b, z, t) {
    }
    forall z, t ensures IsPrimary(a, z, t) <==> IsPrimary(b, z, t) {
      if IsPrimary(a, z, t) {
        PrimaryIgnoresOrder(a, b, z, t);
      }
      if IsPrimary(b, z, t) {
        PrimaryIgnoresOrder(b, a, z, t);
      }
    }
  }

  lemma PrimaryIgnoresOrder(a: seq<ProbeResult>, b: seq<ProbeResult>, zone: string, target: string)
    requires forall rec :: HasRecord(a, rec) <==> HasRecord(b, rec)
    requires IsPrimary(a, zone, target)
    ensures IsPrimary(b, zone, target)
  {
    var p :| HasRecord(a, MXRecord(zone, target, p))
             && forall t, q :: HasRecord(a, MXRecord(zone, t, q)) ==> p <= q;
    assert HasRecord(b, MXRecord(zone, target, p));
  }

  lemma AggregatesIsFunctional(g: Gauges, h: Gauges, zones: seq<string>, results: seq<ProbeResult>)
    requires Aggregates(g, zones, results) && Aggregates(h, zones, results)
    ensures g == h
  {
    CountsIsFunctional(g.classification, h.classification, Classification, PerClass(zones), results);
    CountsIsFunctional(g.mxCount, h.mxCount, MXCount, PerZone(zones), results);
    CountsIsFunctional(g.mxResolved, h.mxResolved, MXResolved, PerZone(zones), results);
    CountsIsFunctional(g.mxCname, h.mxCname, MXCname, PerZone(zones), results);
    CountsIsFunctional(g.mxSyntaxValid, h.mxSyntaxValid, MXSyntaxValid, PerZone(zones), results);
    FlagsIsFunctional(g.nullMX, h.nullMX, zones, results, true);
    FlagsIsFunctional(g.hasNullMXRR, h.hasNullMXRR, zones, results, false);
    PrimariesIsFunctional(g.isPrimary, h.isPrimary, results);
  }

  lemma CountsIsFunctional(v: Vector, w: Vector, kind: Kind, zeros: set<seq<string>>, results: seq<ProbeResult>)
    requires Counts(v, kind, zeros, results) && Counts(w, kind, zeros, results)
    ensures v == w
  {
    assert v.Keys == w.Keys;
  }

  lemma FlagsIsFunctional(v: Vector, w: Vector, zones: seq<string>, results: seq<ProbeResult>, soleOnly: bool)
    requires Flags(v, zones, results, soleOnly) && Flags(w, zones, results, soleOnly)
    ensures v == w
  {
    assert v.Keys == w.Keys;
    forall labels | labels in v ensures v[labels] == w[labels] {
      var z :| labels == [z] && (z in zones || Flagged(results, z, soleOnly));
    }
  }

  lemma PrimariesIsFunctional(v: Vector, w: Vector, results: seq<ProbeResult>)
    requires Primaries(v, results) && Primaries(w, results)
    ensures v == w
  {
    assert v.Keys == w.Keys;
    forall labels | labels in v ensures v[labels] == w[labels] {
      var z, t :| labels == [z, t] && HasTarget(results, z, t);
    }
  }

  /** Two cycles that gathered the same results, in whatever orders, publish the same gauges. */
  lemma GaugesAreScheduleIndependent(
    g: Gauges, h: Gauges, zones: seq<string>, a: seq<ProbeResult>, b: seq<ProbeResult>)
    requires Aggregates(g, zones, a) && Aggregates(h, zones, b) && multiset(a) == multiset(b)
    ensures g == h
  {
    AggregatesIgnoresOrder(g, zones, a, b);
    AggregatesIsFunctional(g, h, zones, b);
  }

  /** The same for the per-server counters that outlive the cycle. */
  lemma CountersAreScheduleIndependent(
    before: Vector, v: Vector, w: Vector, kind: Kind, a: seq<ProbeResult>, b: seq<ProbeResult>)
    requires Advanced(before, v, kind, a) && Advanced(before, w, kind, b) && multiset(a) == multiset(b)
    ensures v == w
  {
    forall labels ensures (labels in v <==> labels in w) && ValueAt(v, labels) == ValueAt(w, labels) {
      CountIgnoresOrder(kind, labels, a, b);
    }
    assert v.Keys == w.Keys;
    forall labels | labels in v ensures v[labels] == w[labels] {
      assert ValueAt(v, labels) == v[labels] && ValueAt(w, labels) == w[labels];
    }
  }

  lemma QueryTimeIsScheduleIndependent(
    before: map<string, real>, v: map<string, real>, w: map<string, real>, a: seq<ProbeResult>, b: seq<ProbeResult>)
    requires AdvancedTime(before, v, a) && AdvancedTime(before, w, b) && multiset(a) == multiset(b)
    ensures v == w
  {
    forall ip ensures (ip in v <==> ip in w) && (ip in v ==> v[ip] == w[ip]) {
      CountIgnoresOrder(Queries, [ip], a, b);
      TimeIgnoresOrder(ip, a, b);
    }
  }

  // ----- folds over the results -----

  function Inc(v: Vector, labels: seq<string>): Vector {
    v[labels := ValueAt(v, labels) + 1]
  }

  function Bumped(kind: Kind, v: Vector, r: ProbeResult): Vector {
    match LabelsOf(kind, r)
    case None => v
    case Some(labels) => Inc(v, labels)
  }

  function Fold(kind: Kind, v: Vector, results: seq<ProbeResult>): Vector {
    if results == [] then v else Bumped(kind, Fold(kind, v, results[..|results| - 1]), results[|results| - 1])
  }

  lemma {:induction false} FoldAdvances(kind: Kind, v: Vector, results: seq<ProbeResult>)
    ensures Advanced(v, Fold(kind, v, results), kind, results)
  {
    if results != [] {
      FoldAdvances(kind, v, results[..|results| - 1]);
    }
  }

  lemma FoldCounts(kind: Kind, v: Vector, results: seq<ProbeResult>)
    requires forall labels <- v :: v[labels] == 0
    ensures Counts(Fold(kind, v, results), kind, v.Keys, results)
  {
    FoldAdvances(kind, v, results);
    var w := Fold(kind, v, results);
    forall labels | labels in w ensures w[labels] == Count(kind, labels, results) {
      assert ValueAt(w, labels) == ValueAt(v, labels) + Count(kind, labels, results);
    }
  }

  function AddTime(times: map<string, real>, r: ProbeResult): map<string, real> {
    if r.ip == "" then times
    else times[r.ip := (if r.ip in times then times[r.ip] else 0.0) + r.duration]
  }

  function FoldTime(times: map<string, real>, results: seq<ProbeResult>): map<string, real> {
    if results == [] then times else AddTime(FoldTime(times, results[..|results| - 1]), results[|results| - 1])
  }

  lemma {:induction false} FoldTimeAdvances(times: map<string, real>, results: seq<ProbeResult>)
    ensures AdvancedTime(times, FoldTime(times, results), results)
  {
    if results != [] {
      var init, r := results[..|results| - 1], results[|results| - 1];
      FoldTimeAdvances(times, init);
      forall ip
        ensures Count(Queries, [ip], results) > 0 <==> Count(Queries, [ip], init) > 0 || (ip != "" && r.ip == ip)
      {
        assert [r.ip] == [ip] <==> [r.ip][0] == [ip][0];
      }
      NoTimeWithoutQueries(init);
    }
  }

  lemma {:induction false} NoTimeWithoutQueries(results: seq<ProbeResult>)
    ensures forall ip :: Count(Queries, [ip], results) == 0 ==> QueryTime(ip, results) == 0.0
  {
    if results != [] {
      NoTimeWithoutQueries(results[..|results| - 1]);
    }
  }

  // ----- MX records and their least priorities -----

  /** The records in arrival order. */
  function RecordList(results: seq<ProbeResult>): seq<MXRecord> {
    if results == [] then []
    else
      RecordList(results[..|results| - 1])
      + if RecordOf(results[|results| - 1]).Some? then [RecordOf(results[|results| - 1]).value] else []
  }

  lemma {:induction false} RecordListMembers(results: seq<ProbeResult>, rec: MXRecord)
    ensures rec in RecordList(results) <==> HasRecord(results, rec)
  {
    if results != [] {
      var init, r := results[..|results| - 1], results[|results| - 1];
      assert results == init + [r];
      RecordListMembers(init, rec);
    }
  }

  function RRsOf(records: seq<MXRecord>, zone: string): nat {
    if records == [] then 0
    else RRsOf(records[..|records| - 1], zone) + if records[|records| - 1].zone == zone then 1 else 0
  }

  lemma {:induction false} RRsOfIsCount(results: seq<ProbeResult>, zone: string)
    ensures RRsOf(RecordList(results), zone) == Count(Records, [zone], results)
  {
    if results != [] {
      var init, r := results[..|results| - 1], results[|results| - 1];
      RRsOfIsCount(init, zone);
      assert results == init + [r];
      CountSnoc(Records, [zone], init, r);
      RecordsOfOne(r, zone);
      if RecordOf(r).Some? {
        RRsOfSnoc(RecordList(init), RecordOf(r).value, zone);
      } else {
        assert RecordList(results) == RecordList(init);
      }
    }
  }

  lemma RecordsOfOne(r: ProbeResult, zone: string)
    ensures LabelsOf(Records, r) == Some([zone]) <==> RecordOf(r).Some? && RecordOf(r).value.zone == zone
  {
    assert [r.zone] == [zone] <==> [r.zone][0] == [zone][0];
  }

  lemma RRsOfSnoc(records: seq<MXRecord>, rec: MXRecord, zone: string)
    ensures RRsOf(records + [rec], zone) == RRsOf(records, zone) + if rec.zone == zone then 1 else 0
  {
    assert (records + [rec])[..|records|] == records;
  }

  /** zone -> target -> least priority seen. */
  type Table = map<string, map<string, nat>>

  ghost predicate In(table: Table, z: string, t: string) {
    z in table && t in table[z]
  }

  ghost predicate HasPair(records: seq<MXRecord>, z: string, t: string) {
    exists rec <- records :: rec.zone == z && rec.target == t
  }

  ghost predicate IsMinTable(table: Table, records: seq<MXRecord>) {
    && (forall z :: z in table ==> table[z] != map[])
    && (forall z, t :: In(table, z, t) <==> HasPair(records, z, t))
    && (forall z, t :: In(table, z, t) ==> MXRecord(z, t, table[z][t]) in records)
    && (forall rec <- records :: In(table, rec.zone, rec.target) && table[rec.zone][rec.target] <= rec.priority)
  }

  function AddToTable(table: Table, rec: MXRecord): Table {
    var row := if rec.zone in table then table[rec.zone] else map[];
    table[rec.zone :=
      if rec.target !in row || rec.priority < row[rec.target] then row[rec.target := rec.priority] else row]
  }

  function TableOf(records: seq<MXRecord>): Table {
    if records == [] then map[] else AddToTable(TableOf(records[..|records| - 1]), records[|records| - 1])
  }

  lemma AddToTableAt(table: Table, rec: MXRecord, z: string, t: string)
    ensures In(AddToTable(table, rec), z, t) <==> In(table, z, t) || (z == rec.zone && t == rec.target)
    ensures In(AddToTable(table, rec), z, t) ==>
              AddToTable(table, rec)[z][t] ==
                if z == rec.zone && t == rec.target && (!In(table, z, t) || rec.priority < table[z][t])
                then rec.priority else table[z][t]
  {
  }

  lemma {:induction false} TableIsMin(records: seq<MXRecord>)
    ensures IsMinTable(TableOf(records), records)
  {
    if records != [] {
      var init, rec := records[..|records| - 1], records[|records| - 1];
      assert records == init + [rec];
      TableIsMin(init);
      var table, table' := TableOf(init), TableOf(records);
      forall z, t ensures In(table', z, t) <==> HasPair(records, z, t) {
        AddToTableAt(table, rec, z, t);
        assert In(table, z, t) <==> HasPair(init, z, t);
      }
      forall z, t | In(table', z, t) ensures MXRecord(z, t, table'[z][t]) in records {
        AddToTableAt(table, rec, z, t);
      }
      forall x | x in records
        ensures In(table', x.zone, x.target) && table'[x.zone][x.target] <= x.priority
      {
        AddToTableAt(table, rec, x.zone, x.target);
      }
    }
  }

  // ----- vectors built from sets -----

  function ZeroVector(zones: seq<string>): Vector {
    map labels | labels in PerZone(zones) :: 0
  }

  function ClassZeros(zones: seq<string>): Vector {
    map labels | labels in PerClass(zones) :: 0
  }

  function Singles(flagged: set<string>): set<seq<string>> {
    set z <- flagged :: [z]
  }

  function FlagDomain(zones: seq<string>, flagged: set<string>): set<seq<string>> {
    PerZone(zones) + Singles(flagged)
  }

  function FlagVector(zones: seq<string>, flagged: set<string>): Vector {
    map labels | labels in FlagDomain(zones, flagged) :: if labels in Singles(flagged) then 1 else 0
  }

  lemma FlagVectorIsFlags(zones: seq<string>, flagged: set<string>, results: seq<ProbeResult>, soleOnly: bool)
    requires forall z :: z in flagged <==> Flagged(results, z, soleOnly)
    ensures Flags(FlagVector(zones, flagged), zones, results, soleOnly)
  {
    forall x, y: string ensures [x] == [y] ==> x == y {
      assert [x] == [y] ==> [x][0] == [y][0];
    }
  }

  function PairLabels(table: Table, among: set<string>): set<seq<string>> {
    set z, t | z in table && z in among && t in table[z] :: [z, t]
  }

  ghost predicate LeastInRow(table: Table, z: string, t: string) {
    In(table, z, t) && forall u :: In(table, z, u) ==> table[z][t] <= table[z][u]
  }

  ghost function PrimaryVector(table: Table, among: set<string>): Vector {
    map labels | labels in PairLabels(table, among) :: if LeastInRow(table, labels[0], labels[1]) then 1 else 0
  }

  lemma PrimaryVectorIsPrimaries(results: seq<ProbeResult>)
    ensures Primaries(PrimaryVector(TableOf(RecordList(results)), TableOf(RecordList(results)).Keys), results)
  {
    var records := RecordList(results);
    var table := TableOf(records);
    var v := PrimaryVector(table, table.Keys);
    TableIsMin(records);
    forall z, t ensures [z, t] in v <==> HasTarget(results, z, t) {
      PairIsTarget(results, z, t);
      if [z, t] in PairLabels(table, table.Keys) {
        var z', t' :| z' in table && t' in table[z'] && [z', t'] == [z, t];
        assert z' == [z', t'][0] == z && t' == [z', t'][1] == t;
      }
    }
    forall z, t | [z, t] in v ensures v[[z, t]] == if IsPrimary(results, z, t) then 1 else 0 {
      PairIsTarget(results, z, t);
      LeastTargetIsPrimary(results, z, t);
    }
  }

  lemma PairIsTarget(results: seq<ProbeResult>, z: string, t: string)
    ensures HasTarget(results, z, t) <==> In(TableOf(RecordList(results)), z, t)
  {
    var records := RecordList(results);
    TableIsMin(records);
    assert In(TableOf(records), z, t) <==> HasPair(records, z, t);
    if HasTarget(results, z, t) {
      var p :| HasRecord(results, MXRecord(z, t, p));
      RecordListMembers(results, MXRecord(z, t, p));
    }
    if HasPair(records, z, t) {
      var rec :| rec in records && rec.zone == z && rec.target == t;
      RecordListMembers(results, rec);
      assert rec == MXRecord(z, t, rec.priority);
    }
  }

  lemma LeastTargetIsPrimary(results: seq<ProbeResult>, z: string, t: string)
    requires In(TableOf(RecordList(results)), z, t)
    ensures IsPrimary(results, z, t) <==> LeastInRow(TableOf(RecordList(results)), z, t)
  {
    var records := RecordList(results);
    var table := TableOf(records);
    TableIsMin(records);
    if IsPrimary(results, z, t) {
      var p :| HasRecord(results, MXRecord(z, t, p))
               && forall u, q :: HasRecord(results, MXRecord(z, u, q)) ==> p <= q;
      RecordListMembers(results, MXRecord(z, t, p));
      forall u | In(table, z, u) ensures table[z][t] <= table[z][u] {
        RecordListMembers(results, MXRecord(z, u, table[z][u]));
      }
    }
    if LeastInRow(table, z, t) {
      RecordListMembers(results, MXRecord(z, t, table[z][t]));
      forall u, q | HasRecord(results, MXRecord(z, u, q)) ensures table[z][t] <= q {
        RecordListMembers(results, MXRecord(z, u, q));
      }
    }
  }

  /** Zones with a "0 ." record, and those where it is the only record. */
  ghost function NullZones(results: seq<ProbeResult>): set<string> {
    set rec <- RecordList(results) | rec.target == "." && rec.priority == 0 :: rec.zone
  }

  ghost function SoleNullZones(results: seq<ProbeResult>): set<string> {
    set z <- NullZones(results) | RRsOf(RecordList(results), z) == 1
  }

  lemma NullZonesAreFlagged(results: seq<ProbeResult>)
    ensures forall z :: z in NullZones(results) <==> Flagged(results, z, false)
    ensures forall z :: z in SoleNullZones(results) <==> Flagged(results, z, true)
  {
    forall z ensures (z in NullZones(results) <==> HasNullRR(results, z))
                  && RRsOf(RecordList(results), z) == Count(Records, [z], results) {
      RecordListMembers(results, MXRecord(z, ".", 0));
      RRsOfIsCount(results, z);
      if z in NullZones(results) {
        var rec :| rec in RecordList(results) && rec.target == "." && rec.priority == 0 && rec.zone == z;
        assert rec == MXRecord(z, ".", 0);
      }
    }
  }

  /** The gauges as the folds compute them. */
  ghost function Computed(zones: seq<string>, results: seq<ProbeResult>): Gauges {
    var table := TableOf(RecordList(results));
    Gauges(
      Fold(Classification, ClassZeros(zones), results),
      Fold(MXCount, ZeroVector(zones), results),
      Fold(MXResolved, ZeroVector(zones), results),
      Fold(MXCname, ZeroVector(zones), results),
      Fold(MXSyntaxValid, ZeroVector(zones), results),
      FlagVector(zones, SoleNullZones(results)),
      FlagVector(zones, NullZones(results)),
      PrimaryVector(table, table.Keys))
  }

  lemma ComputedAggregates(zones: seq<string>, results: seq<ProbeResult>)
    ensures Aggregates(Computed(zones, results), zones, results)
  {
    FoldCounts(Classification, ClassZeros(zones), results);
    FoldCounts(MXCount, ZeroVector(zones), results);
    FoldCounts(MXResolved, ZeroVector(zones), results);
    FoldCounts(MXCname, ZeroVector(zones), results);
    FoldCounts(MXSyntaxValid, ZeroVector(zones), results);
    NullZonesAreFlagged(results);
    FlagVectorIsFlags(zones, SoleNullZones(results), results, true);
    FlagVectorIsFlags(zones, NullZones(results), results, false);
    PrimaryVectorIsPrimaries(results);
  }

  // ----- the program -----

  class CycleRunner {
    var classification: Vector
    var mxCount: Vector
    var mxResolved: Vector
    var mxCname: Vector
    var mxSyntaxValid: Vector
    var nullMX: Vector
    var hasNullMXRR: Vector
    var isPrimary: Vector
    var queries: Vector
    var timeouts: Vector
    var queryTime: map<string, real>

    constructor ()
      ensures queries == timeouts == map[] && queryTime == map[]
    {
      classification, mxCount, mxResolved, mxCname, mxSyntaxValid := map[], map[], map[], map[], map[];
      nullMX, hasNullMXRR, isPrimary := map[], map[], map[];
      queries, timeouts, queryTime := map[], map[], map[];
    }

    ghost function Published(): Gauges
      reads this
    {
      Gauges(classification, mxCount, mxResolved, mxCname, mxSyntaxValid, nullMX, hasNullMXRR, isPrimary)
    }

    /** `Run` from the gathered results on: reset, count the servers, and derive every gauge. */
    method Aggregate(zones: seq<string>, results: seq<ProbeResult>)
      modifies this
      ensures Aggregates(Published(), zones, results)
      ensures Advanced(old(queries), queries, Queries, results)
      ensures Advanced(old(timeouts), timeouts, Timeouts, results)
      ensures AdvancedTime(old(queryTime), queryTime, results)
    {
      Derive(zones, results);
      ComputedAggregates(zones, results);
      FoldAdvances(Queries, old(queries), results);
      FoldAdvances(Timeouts, old(timeouts), results);
      FoldTimeAdvances(old(queryTime), results);
    }

    method Derive(zones: seq<string>, results: seq<ProbeResult>)
      modifies this
      ensures Published() == Computed(zones, results)
      ensures queries == Fold(Queries, old(queries), results)
      ensures timeouts == Fold(Timeouts, old(timeouts), results)
      ensures queryTime == FoldTime(old(queryTime), results)
    {
      classification, mxCount, mxResolved, mxCname, mxSyntaxValid := map[], map[], map[], map[], map[];
      nullMX, hasNullMXRR, isPrimary := map[], map[], map[];
      CountServers(results);
      CountClasses(zones, results);
      DeriveMX(zones, results);
    }

    method DeriveMX(zones: seq<string>, results: seq<ProbeResult>)
      modifies this`mxCount, this`mxResolved, this`mxCname, this`mxSyntaxValid
      modifies this`nullMX, this`hasNullMXRR, this`isPrimary
      ensures Published() == Computed(zones, results).(classification := classification)
    {
      var records, table := CountMX(zones, results);
      FlagNullMX(zones, results, records);
      isPrimary := Primary(table);
    }

    method CountServers(results: seq<ProbeResult>)
      modifies this`queries, this`timeouts, this`queryTime
      ensures queries == Fold(Queries, old(queries), results)
      ensures timeouts == Fold(Timeouts, old(timeouts), results)
      ensures queryTime == FoldTime(old(queryTime), results)
    {
      for i := 0 to |results|
        invariant queries == Fold(Queries, old(queries), results[..i])
        invariant timeouts == Fold(Timeouts, old(timeouts), results[..i])
        invariant queryTime == FoldTime(old(queryTime), results[..i])
      {
        var r := results[i];
        assert results[..i + 1][..i] == results[..i];
        if r.ip == "" {
          continue;
        }
        queries := Inc(queries, [r.ip]);
        queryTime := queryTime[r.ip := (if r.ip in queryTime then queryTime[r.ip] else 0.0) + r.duration];
        if r.timedOut {
          timeouts := Inc(timeouts, [r.ip]);
        }
      }
      assert results[..|results|] == results;
    }

    method CountClasses(zones: seq<string>, results: seq<ProbeResult>)
      requires classification == map[]
      modifies this`classification
      ensures classification == Fold(Classification, ClassZeros(zones), results)
    {
      for i := 0 to |zones|
        invariant classification == ClassZeros(zones[..i])
      {
        var z := zones[i];
        assert zones[..i + 1] == zones[..i] + [z];
        ClassZerosSnoc(zones[..i], z);
        classification := classification[[z, "parent-only"] := 0];
        classification := classification[[z, "self-only"] := 0];
        classification := classification[[z, "both"] := 0];
      }
      assert zones[..|zones|] == zones;
      for i := 0 to |results|
        invariant classification == Fold(Classification, ClassZeros(zones), results[..i])
      {
        var r := results[i];
        assert results[..i + 1][..i] == results[..i];
        if r.check != "ns_classification" || "classification" !in r.labels {
          continue;
        }
        classification := Inc(classification, [r.zone, r.labels["classification"]]);
      }
      assert results[..|results|] == results;
    }

    /** The collecting loop over the MX results; returns the records and the least-priority table. */
    method CountMX(zones: seq<string>, results: seq<ProbeResult>) returns (records: seq<MXRecord>, table: Table)
      modifies this`mxCount, this`mxResolved, this`mxCname, this`mxSyntaxValid
      ensures mxCount == Fold(MXCount, ZeroVector(zones), results)
      ensures mxResolved == Fold(MXResolved, ZeroVector(zones), results)
      ensures mxCname == Fold(MXCname, ZeroVector(zones), results)
      ensures mxSyntaxValid == Fold(MXSyntaxValid, ZeroVector(zones), results)
      ensures records == RecordList(results) && table == TableOf(records)
    {
      var zeros := ZeroPerZone(zones);
      mxCount, mxResolved, mxCname, mxSyntaxValid := zeros, zeros, zeros, zeros;
      records, table := [], map[];
      for i := 0 to |results|
        invariant mxCount == Fold(MXCount, zeros, results[..i])
        invariant mxResolved == Fold(MXResolved, zeros, results[..i])
        invariant mxCname == Fold(MXCname, zeros, results[..i])
        invariant mxSyntaxValid == Fold(MXSyntaxValid, zeros, results[..i])
        invariant records == RecordList(results[..i]) && table == TableOf(records)
      {
        var r := results[i];
        assert results[..i + 1][..i] == results[..i];
        var rec := CountOneMX(r);
        if rec.Some? {
          assert (records + [rec.value])[..|records|] == records;
          records := records + [rec.value];
          table := AddToTable(table, rec.value);
        }
      }
      assert results[..|results|] == results;
    }

    /** The body of that loop. */
    method CountOneMX(r: ProbeResult) returns (rec: Option<MXRecord>)
      modifies this`mxCount, this`mxResolved, this`mxCname, this`mxSyntaxValid
      ensures mxCount == Bumped(MXCount, old(mxCount), r)
      ensures mxResolved == Bumped(MXResolved, old(mxResolved), r)
      ensures mxCname == Bumped(MXCname, old(mxCname), r)
      ensures mxSyntaxValid == Bumped(MXSyntaxValid, old(mxSyntaxValid), r)
      ensures rec == RecordOf(r)
    {
      rec := None;
      if r.check != "mx" {
        return;
      }
      if "mx_info" in r.metrics {
        mxCount := Inc(mxCount, [r.zone]);
        if "priority" !in r.labels {
          return;
        }
        var p := Priority.Parse(r.labels["priority"]);
        if p.None? {
          return;
        }
        rec := Some(MXRecord(r.zone, if "target" in r.labels then r.labels["target"] else "", p.value));
      }
      CountValidity(r);
    }

    /** The rest of that body, for a result that has not left it early. */
    method CountValidity(r: ProbeResult)
      requires r.check == "mx" && (IsMXInfo(r) ==> RecordOf(r).Some?)
      modifies this`mxResolved, this`mxCname, this`mxSyntaxValid
      ensures mxResolved == Bumped(MXResolved, old(mxResolved), r)
      ensures mxCname == Bumped(MXCname, old(mxCname), r)
      ensures mxSyntaxValid == Bumped(MXSyntaxValid, old(mxSyntaxValid), r)
    {
      if "mx_resolves" in r.metrics && r.metrics["mx_resolves"] == 1.0 {
        mxResolved := Inc(mxResolved, [r.zone]);
      }
      if "mx_is_cname" in r.metrics && r.metrics["mx_is_cname"] == 1.0 {
        mxCname := Inc(mxCname, [r.zone]);
      }
      if "mx_syntax_valid" in r.metrics && r.metrics["mx_syntax_valid"] == 1.0 {
        mxSyntaxValid := Inc(mxSyntaxValid, [r.zone]);
      }
    }

    method FlagNullMX(zones: seq<string>, results: seq<ProbeResult>, records: seq<MXRecord>)
      requires records == RecordList(results)
      modifies this`nullMX, this`hasNullMXRR
      ensures nullMX == FlagVector(zones, SoleNullZones(results))
      ensures hasNullMXRR == FlagVector(zones, NullZones(results))
    {
      var zoneRRs, hasNull := CountRRs(records);
      var zeros := ZeroPerZone(zones);
      nullMX, hasNullMXRR := zeros, zeros;
      assert zeros == FlagVector(zones, {});
      ghost var done, sole: set<string> := {}, {};
      var left := hasNull;
      while left != {}
        invariant done == hasNull - left && left <= hasNull
        invariant sole == set z <- done | RRsOf(records, z) == 1
        invariant hasNullMXRR == FlagVector(zones, done)
        invariant nullMX == FlagVector(zones, sole)
        decreases left
      {
        var zone :| zone in left;
        left := left - {zone};
        FlagVectorSet(zones, done, zone);
        FlagVectorSet(zones, sole, zone);
        done := done + {zone};
        hasNullMXRR := hasNullMXRR[[zone] := 1];
        if zone in zoneRRs && zoneRRs[zone] == 1 {
          nullMX := nullMX[[zone] := 1];
          sole := sole + {zone};
        }
      }
      assert done == NullZones(results) && sole == SoleNullZones(results);
    }
  }

  lemma NoPrimaries(table: Table)
    ensures PrimaryVector(table, {}) == map[]
  {
    assert PairLabels(table, {}) == {};
  }

  /** The is_primary values of every zone, zones in any order. */
  method Primary(table: Table) returns (v: Vector)
    ensures v == PrimaryVector(table, table.Keys)
  {
    v := map[];
    NoPrimaries(table);
    var left := table.Keys;
    ghost var done: set<string> := {};
    while left != {}
      invariant done == table.Keys - left && left <= table.Keys
      invariant v == PrimaryVector(table, done)
      decreases left
    {
      var zone :| zone in left;
      left := left - {zone};
      v := AddZone(table, done, zone, v);
      done := done + {zone};
    }
    assert done == table.Keys;
  }

  /** The body of that loop. */
  method AddZone(table: Table, ghost done: set<string>, zone: string, before: Vector) returns (v: Vector)
    requires zone in table && zone !in done && before == PrimaryVector(table, done)
    ensures v == PrimaryVector(table, done + {zone})
  {
    var marks := MarkRow(zone, table[zone]);
    AddRow(table, done, zone, marks);
    v := before + marks;
  }

  method ZeroPerZone(zones: seq<string>) returns (v: Vector)
    ensures v == ZeroVector(zones)
  {
    v := map[];
    for i := 0 to |zones|
      invariant v == ZeroVector(zones[..i])
    {
      assert PerZone(zones[..i + 1]) == PerZone(zones[..i]) + {[zones[i]]} by {
        assert zones[..i + 1] == zones[..i] + [zones[i]];
      }
      v := v[[zones[i]] := 0];
    }
    assert zones[..|zones|] == zones;
  }

  lemma ClassZerosSnoc(zones: seq<string>, z: string)
    ensures ClassZeros(zones + [z])
         == ClassZeros(zones)[[z, "parent-only"] := 0][[z, "self-only"] := 0][[z, "both"] := 0]
  {
    assert forall x :: x in zones + [z] <==> x in zones || x == z;
    assert PerClass(zones + [z]) == PerClass(zones) + {[z, "parent-only"], [z, "self-only"], [z, "both"]};
  }

  method CountRRs(records: seq<MXRecord>) returns (zoneRRs: map<string, nat>, hasNull: set<string>)
    ensures forall z :: (if z in zoneRRs then zoneRRs[z] else 0) == RRsOf(records, z)
    ensures hasNull == set rec <- records | rec.target == "." && rec.priority == 0 :: rec.zone
  {
    zoneRRs, hasNull := map[], {};
    for i := 0 to |records|
      invariant forall z :: (if z in zoneRRs then zoneRRs[z] else 0) == RRsOf(records[..i], z)
      invariant hasNull == set rec <- records[..i] | rec.target == "." && rec.priority == 0 :: rec.zone
    {
      var rec := records[i];
      assert records[..i + 1][..i] == records[..i];
      assert records[..i + 1] == records[..i] + [rec];
      zoneRRs := zoneRRs[rec.zone := (if rec.zone in zoneRRs then zoneRRs[rec.zone] else 0) + 1];
      if rec.priority == 0 && rec.target == "." {
        hasNull := hasNull + {rec.zone};
      }
    }
    assert records[..|records|] == records;
  }

  lemma FlagVectorSet(zones: seq<string>, flagged: set<string>, zone: string)
    ensures FlagVector(zones, flagged + {zone}) == FlagVector(zones, flagged)[[zone] := 1]
  {
    assert Singles(flagged + {zone}) == Singles(flagged) + {[zone]};
  }

  ghost predicate IsLeast(m: nat, row: map<string, nat>) {
    (exists t :: t in row && row[t] == m) && forall t :: t in row ==> m <= row[t]
  }

  /** The zone's minimum: one pass over its targets, in any order. */
  method LeastPriority(row: map<string, nat>) returns (zoneMin: nat)
    ensures row != map[] ==> IsLeast(zoneMin, row)
  {
    var first := true;
    zoneMin := 0;
    var left := row.Keys;
    while left != {}
      invariant left <= row.Keys
      invariant first <==> left == row.Keys
      invariant !first ==> exists t :: t in row.Keys - left && row[t] == zoneMin
      invariant !first ==> forall t :: t in row.Keys - left ==> zoneMin <= row[t]
      decreases left
    {
      var t :| t in left;
      left := left - {t};
      if first || row[t] < zoneMin {
        zoneMin := row[t];
        first := false;
      }
    }
  }

  ghost predicate Marks(marks: Vector, zone: string, row: map<string, nat>) {
    && marks.Keys == (set t <- row.Keys :: [zone, t])
    && forall t <- row.Keys :: marks[[zone, t]] == if (forall u <- row.Keys :: row[t] <= row[u]) then 1 else 0
  }

  /** One zone's is_primary values. */
  method MarkRow(zone: string, row: map<string, nat>) returns (marks: Vector)
    ensures Marks(marks, zone, row)
  {
    var zoneMin := LeastPriority(row);
    marks := map[];
    var left := row.Keys;
    while left != {}
      invariant left <= row.Keys
      invariant marks.Keys == set t <- row.Keys - left :: [zone, t]
      invariant forall t <- row.Keys - left ::
                  [zone, t] in marks && marks[[zone, t]] == if row[t] == zoneMin then 1 else 0
      decreases left
    {
      var t :| t in left;
      left := left - {t};
      forall u ensures [zone, u] == [zone, t] ==> u == t {
        assert [zone, u] == [zone, t] ==> [zone, u][1] == [zone, t][1];
      }
      marks := marks[[zone, t] := if row[t] == zoneMin then 1 else 0];
    }
    assert row.Keys - left == row.Keys;
  }

  lemma PairLabelsAdd(table: Table, done: set<string>, zone: string)
    requires zone in table
    ensures PairLabels(table, done + {zone}) == PairLabels(table, done) + set t <- table[zone].Keys :: [zone, t]
  {
  }

  lemma MarkIsLeast(table: Table, zone: string, t: string, marks: Vector)
    requires zone in table && t in table[zone] && Marks(marks, zone, table[zone])
    ensures [zone, t] in marks && marks[[zone, t]] == if LeastInRow(table, zone, t) then 1 else 0
  {
    assert LeastInRow(table, zone, t) <==> forall u <- table[zone].Keys :: table[zone][t] <= table[zone][u];
  }

  lemma AddRow(table: Table, done: set<string>, zone: string, marks: Vector)
    requires zone in table && zone !in done
    requires Marks(marks, zone, table[zone])
    ensures PrimaryVector(table, done) + marks == PrimaryVector(table, done + {zone})
  {
    var v, w := PrimaryVector(table, done) + marks, PrimaryVector(table, done + {zone});
    PairLabelsAdd(table, done, zone);
    forall labels | labels in w ensures v[labels] == w[labels] {
      if labels in marks {
        var t :| t in table[zone].Keys && labels == [zone, t];
        MarkIsLeast(table, zone, t, marks);
      } else {
        assert labels in PairLabels(table, done);
      }
    }
  }
}
