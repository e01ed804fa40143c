/** One zone's probers, run in map order: cycle/runner.go, the end of `probeZone`. */
module ProbeLoop {
  import opened Wrappers
  import opened Results
  import opened Sequences
  import opened FanOut
  import opened ZoneView
  import R = Runner

  /**
   * What each registered prober comes to, by its name. A zone whose delegation walk failed, or that
   * has no nameservers, runs no prober: its map is empty.
   */
  type Outcomes = map<string, Result<seq<ProbeResult>>>

  /** A prober's error is logged and skipped. */
  function ResultsOf(outcomes: Outcomes, name: string): seq<ProbeResult> {
    if name in outcomes && outcomes[name].Success? then outcomes[name].value else []
  }

  function InOrder(outcomes: Outcomes, order: seq<string>): seq<ProbeResult> {
    if order == [] then []
    else InOrder(outcomes, order[..|order| - 1]) + ResultsOf(outcomes, order[|order| - 1])
  }

  ghost predicate IsOrder(outcomes: Outcomes, order: seq<string>) {
    NoRepeats(order) && forall name :: name in order <==> name in outcomes
  }

  /** All probers' results, the probers in some order. */
  ghost predicate IsBatch(outcomes: Outcomes, batch: seq<ProbeResult>) {
    exists order :: IsOrder(outcomes, order) && batch == InOrder(outcomes, order)
  }

  lemma InOrderSnoc(outcomes: Outcomes, order: seq<string>, name: string)
    ensures InOrder(outcomes, order + [name]) == InOrder(outcomes, order) + ResultsOf(outcomes, name)
  {
    assert (order + [name])[..|order|] == order;
  }

  method RunProbers(outcomes: Outcomes) returns (results: seq<ProbeResult>)
    ensures IsBatch(outcomes, results)
  {
    results := [];
    var left := outcomes.Keys;
    ghost var order: seq<string> := [];
    while left != {}
      invariant left <= outcomes.Keys && NoRepeats(order)
      invariant forall name :: name in order <==> name in outcomes.Keys - left
      invariant results == InOrder(outcomes, order)
      decreases left
    {
      var name :| name in left;
      left := left - {name};
      NoRepeatsSnoc(order, name);
      InOrderSnoc(outcomes, order, name);
      order := order + [name];
      if outcomes[name].Failure? {
        assert results + [] == results;
        continue;
      }
      results := results + outcomes[name].value;
    }
    assert IsOrder(outcomes, order);
  }

  // ----- the order of the probers -----

  lemma {:induction false} InOrderOfConcat(outcomes: Outcomes, a: seq<string>, b: seq<string>)
    ensures InOrder(outcomes, a + b) == InOrder(outcomes, a) + InOrder(outcomes, b)
  {
    if b == [] {
      assert a + b == a;
    } else {
      assert a + b == (a + b[..|b| - 1]) + [b[|b| - 1]];
      InOrderOfConcat(outcomes, a, b[..|b| - 1]);
      InOrderSnoc(outcomes, a + b[..|b| - 1], b[|b| - 1]);
    }
  }

  lemma InOrderWithout(outcomes: Outcomes, a: seq<string>, name: string, b: seq<string>)
    ensures multiset(InOrder(outcomes, a + [name] + b))
         == multiset(InOrder(outcomes, a + b)) + multiset(ResultsOf(outcomes, name))
  {
    InOrderSnoc(outcomes, a, name);
    InOrderOfConcat(outcomes, a + [name], b);
    InOrderOfConcat(outcomes, a, b);
  }

  lemma {:induction false} InOrderIgnoresOrder(outcomes: Outcomes, a: seq<string>, b: seq<string>)
    requires multiset(a) == multiset(b)
    ensures multiset(InOrder(outcomes, a)) == multiset(InOrder(outcomes, b))
    decreases |a|
  {
    if a == [] {
      assert |multiset(b)| == 0;
    } else {
      var init, last := a[..|a| - 1], a[|a| - 1];
      assert a == init + [last];
      var front, back := SplitPermutation(init, last, b);
      InOrderIgnoresOrder(outcomes, init, front + back);
      InOrderWithout(outcomes, front, last, back);
      InOrderSnoc(outcomes, init, last);
    }
  }

  /** Any two orders of the probers give the same results, rearranged. */
  lemma BatchesPermute(outcomes: Outcomes, batch: seq<ProbeResult>, batch': seq<ProbeResult>)
    requires IsBatch(outcomes, batch) && IsBatch(outcomes, batch')
    ensures multiset(batch) == multiset(batch')
  {
    var a :| IsOrder(outcomes, a) && batch == InOrder(outcomes, a);
    var b :| IsOrder(outcomes, b) && batch' == InOrder(outcomes, b);
    SameElementsPermute(a, b);
    InOrderIgnoresOrder(outcomes, a, b);
  }

  // ----- one check's results -----

  /** Probers label their results with the zone and with the name they are registered under. */
  ghost predicate Named(outcomes: Outcomes, zone: string) {
    forall name :: forall r <- ResultsOf(outcomes, name) :: r.zone == zone && r.check == name
  }

  lemma {:induction false} OwnOfAll(results: seq<ProbeResult>, zone: string, check: string)
    requires forall r <- results :: r.zone == zone && r.check == check
    ensures Own(results, zone, check) == results
  {
    if results != [] {
      OwnOfAll(results[..|results| - 1], zone, check);
    }
  }

  lemma {:induction false} OwnOfNone(results: seq<ProbeResult>, zone: string, check: string)
    requires forall r <- results :: !Mine(r, zone, check)
    ensures Own(results, zone, check) == []
  {
    if results != [] {
      OwnOfNone(results[..|results| - 1], zone, check);
    }
  }

  lemma {:induction false} OwnOfInOrder(outcomes: Outcomes, order: seq<string>, zone: string, check: string)
    requires Named(outcomes, zone) && NoRepeats(order)
    ensures Own(InOrder(outcomes, order), zone, check) == if check in order then ResultsOf(outcomes, check) else []
  {
    if order != [] {
      var init, last := order[..|order| - 1], order[|order| - 1];
      assert order == init + [last];
      OwnOfInOrder(outcomes, init, zone, check);
      OwnOfConcat(InOrder(outcomes, init), ResultsOf(outcomes, last), zone, check);
      if last == check {
        OwnOfAll(ResultsOf(outcomes, last), zone, check);
      } else {
        OwnOfNone(ResultsOf(outcomes, last), zone, check);
      }
    }
  }

  /** Whatever the order, a batch has of one check exactly what that prober returned, in its order. */
  lemma BatchKeepsEachCheckWhole(outcomes: Outcomes, batch: seq<ProbeResult>, zone: string, check: string)
    requires IsBatch(outcomes, batch) && Named(outcomes, zone)
    ensures Own(batch, zone, check)
         == if check in outcomes && outcomes[check].Success? then outcomes[check].value else []
  {
    var order :| IsOrder(outcomes, order) && batch == InOrder(outcomes, order);
    OwnOfInOrder(outcomes, order, zone, check);
  }

  lemma {:induction false} InOrderIsLabelled(outcomes: Outcomes, order: seq<string>, zone: string)
    requires Named(outcomes, zone)
    ensures forall r <- InOrder(outcomes, order) :: r.zone == zone
  {
    if order != [] {
      InOrderIsLabelled(outcomes, order[..|order| - 1], zone);
      assert forall r <- ResultsOf(outcomes, order[|order| - 1]) :: r.zone == zone;
    }
  }

  // ----- whole cycles -----

  /** What the zones' goroutines return for these outcomes, each with its own order of the probers. */
  ghost predicate Yields(outcomes: seq<Outcomes>, zones: seq<string>, batches: seq<seq<ProbeResult>>) {
    && |outcomes| == |zones| == |batches|
    && forall i :: 0 <= i < |zones| ==> Named(outcomes[i], zones[i]) && IsBatch(outcomes[i], batches[i])
  }

  lemma YieldIsLabelled(outcomes: seq<Outcomes>, zones: seq<string>, batches: seq<seq<ProbeResult>>)
    requires Yields(outcomes, zones, batches)
    ensures Labelled(batches, zones)
  {
    forall i, r | 0 <= i < |batches| && r in batches[i] ensures r.zone == zones[i] {
      assert Named(outcomes[i], zones[i]) && IsBatch(outcomes[i], batches[i]);
      var order :| IsOrder(outcomes[i], order) && batches[i] == InOrder(outcomes[i], order);
      InOrderIsLabelled(outcomes[i], order, zones[i]);
    }
  }

  lemma YieldsTheSame(
    outcomes: seq<Outcomes>, zones: seq<string>, batches: seq<seq<ProbeResult>>, batches': seq<seq<ProbeResult>>)
    requires Yields(outcomes, zones, batches) && Yields(outcomes, zones, batches')
    ensures SameResults(batches, batches')
  {
    forall i | 0 <= i < |batches| ensures multiset(batches[i]) == multiset(batches'[i]) {
      assert IsBatch(outcomes[i], batches[i]) && IsBatch(outcomes[i], batches'[i]);
      BatchesPermute(outcomes[i], batches[i], batches'[i]);
    }
  }

  /**
   * What every cycle has of a zone and a check is what that zone's prober returned, whatever the
   * schedule and whatever the order of the probers; configured zones being distinct.
   */
  lemma CycleKeepsEachCheckWhole(
    outcomes: seq<Outcomes>, zones: seq<string>, batches: seq<seq<ProbeResult>>, run: seq<State>, k: nat, check: string)
    requires Yields(outcomes, zones, batches) && NoRepeats(zones) && k < |zones|
    requires IsRun(batches, run) && AllFinished(run[|run| - 1])
    ensures Own(run[|run| - 1].shared, zones[k], check) == ResultsOf(outcomes[k], check)
  {
    YieldIsLabelled(outcomes, zones, batches);
    WaitKeepsEachZoneWhole(batches, zones, run, k, check);
    assert Named(outcomes[k], zones[k]) && IsBatch(outcomes[k], batches[k]);
    BatchKeepsEachCheckWhole(outcomes[k], batches[k], zones[k], check);
  }

  /** A cycle over these outcomes can gather these results, in this order. */
  ghost predicate Gathers(outcomes: seq<Outcomes>, zones: seq<string>, results: seq<ProbeResult>) {
    exists batches: seq<seq<ProbeResult>>, run: seq<State> ::
      && Yields(outcomes, zones, batches)
      && IsRun(batches, run) && AllFinished(run[|run| - 1]) && results == run[|run| - 1].shared
  }

  lemma CycleOf(outcomes: seq<Outcomes>, zones: seq<string>, results: seq<ProbeResult>)
    returns (batches: seq<seq<ProbeResult>>, run: seq<State>)
    requires Gathers(outcomes, zones, results)
    ensures Yields(outcomes, zones, batches)
    ensures IsRun(batches, run) && AllFinished(run[|run| - 1]) && results == run[|run| - 1].shared
  {
    batches, run :|
      && Yields(outcomes, zones, batches)
      && IsRun(batches, run) && AllFinished(run[|run| - 1]) && results == run[|run| - 1].shared;
  }

  /** Two cycles over the same outcomes gather the same results, rearranged. */
  lemma CyclesPermute(outcomes: seq<Outcomes>, zones: seq<string>, a: seq<ProbeResult>, b: seq<ProbeResult>)
    requires Gathers(outcomes, zones, a) && Gathers(outcomes, zones, b)
    ensures multiset(a) == multiset(b)
  {
    var batches, run := CycleOf(outcomes, zones, a);
    var batches', run' := CycleOf(outcomes, zones, b);
    YieldsTheSame(outcomes, zones, batches, batches');
    RunsGatherTheSame(batches, batches', run, run');
  }

  /** The gauges are a function of the probers' outcomes: neither schedules nor map order show. */
  lemma GaugesDependOnOutcomesOnly(
    outcomes: seq<Outcomes>, zones: seq<string>, a: seq<ProbeResult>, b: seq<ProbeResult>, g: R.Gauges, h: R.Gauges)
    requires Gathers(outcomes, zones, a) && Gathers(outcomes, zones, b)
    requires R.Aggregates(g, zones, a) && R.Aggregates(h, zones, b)
    ensures g == h
  {
    CyclesPermute(outcomes, zones, a, b);
    R.GaugesAreScheduleIndependent(g, h, zones, a, b);
  }

  /** And so are the counters that outlive the cycle, from the same values before it. */
  lemma CountersDependOnOutcomesOnly(
    outcomes: seq<Outcomes>, zones: seq<string>, a: seq<ProbeResult>, b: seq<ProbeResult>,
    kind: R.Kind, before: R.Vector, v: R.Vector, w: R.Vector)
    requires Gathers(outcomes, zones, a) && Gathers(outcomes, zones, b)
    requires R.Advanced(before, v, kind, a) && R.Advanced(before, w, kind, b)
    ensures v == w
  {
    CyclesPermute(outcomes, zones, a, b);
    R.CountersAreScheduleIndependent(before, v, w, kind, a, b);
  }

  // ----- one schedule -----

  /** Each zone's probers run, in some order. */
  method RunZones(outcomes: seq<Outcomes>) returns (batches: seq<seq<ProbeResult>>)
    ensures |batches| == |outcomes| && forall i :: 0 <= i < |outcomes| ==> IsBatch(outcomes[i], batches[i])
  {
    batches := [];
    for i := 0 to |outcomes|
      invariant |batches| == i && forall j :: 0 <= j < i ==> IsBatch(outcomes[j], batches[j])
    {
      var batch := RunProbers(outcomes[i]);
      batches := batches + [batch];
    }
  }

  /** The zones up to `done` have finished, one after the other; the rest have not begun. */
  ghost predicate InTurn(batches: seq<seq<ProbeResult>>, s: State, done: nat) {
    && done <= |batches| == |s.phases|
    && s.holder == FREE
    && (forall i :: 0 <= i < done ==> s.phases[i].Finished?)
    && (forall i :: done <= i < |batches| ==> s.phases[i].Probing?)
  }

  lemma Extend(batches: seq<seq<ProbeResult>>, run: seq<State>, s: State, i: nat) returns (longer: seq<State>)
    requires IsRun(batches, run) && StepOf(batches, run[|run| - 1], s, i)
    ensures IsRun(batches, longer) && longer[|longer| - 1] == s
  {
    longer := run + [s];
    assert longer[..|run|] == run;
  }

  /** The five steps of one zone, with no other zone between them. */
  lemma OneZone(batches: seq<seq<ProbeResult>>, run: seq<State>, i: nat) returns (longer: seq<State>)
    requires IsRun(batches, run) && i < |batches| && InTurn(batches, run[|run| - 1], i)
    ensures IsRun(batches, longer) && InTurn(batches, longer[|longer| - 1], i + 1)
    ensures longer[|longer| - 1].shared == run[|run| - 1].shared + batches[i]
  {
    var s := run[|run| - 1];
    var s1 := s.(phases := s.phases[i := Probed]);
    var s2 := s1.(phases := s.phases[i := Locked], holder := i);
    var s3 := s2.(phases := s.phases[i := Loaded(s.shared)]);
    var s4 := s3.(phases := s.phases[i := Stored], shared := s.shared + batches[i], order := s.order + [i]);
    var s5 := s4.(phases := s.phases[i := Finished], holder := FREE);
    longer := Extend(batches, run, s1, i);
    longer := Extend(batches, longer, s2, i);
    longer := Extend(batches, longer, s3, i);
    longer := Extend(batches, longer, s4, i);
    longer := Extend(batches, longer, s5, i);
  }

  /**
   * A cycle: every zone probed and gathered. The zones take turns here, which is one of the
   * schedules; the contract tells no more than that it is one.
   */
  method GatherAll(outcomes: seq<Outcomes>, zones: seq<string>) returns (results: seq<ProbeResult>)
    requires |outcomes| == |zones| && forall i :: 0 <= i < |zones| ==> Named(outcomes[i], zones[i])
    ensures Gathers(outcomes, zones, results)
  {
    var batches := RunZones(outcomes);
    results := [];
    ghost var run := [State(seq(|batches|, _ => Probing), FREE, [], [])];
    for i := 0 to |batches|
      invariant IsRun(batches, run) && InTurn(batches, run[|run| - 1], i)
      invariant results == run[|run| - 1].shared
    {
      run := OneZone(batches, run, i);
      results := results + batches[i];
    }
    assert Yields(outcomes, zones, batches);
  }
}
