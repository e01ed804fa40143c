/** The concurrent half of a probe cycle: cycle/runner.go, `Run` up to `wg.Wait()`. */
module FanOut {
  import opened Results
  import opened Sequences
  import opened Runner

  // ----- the goroutines as a transition system -----

  /**
   * Where a zone's goroutine is. Appending to the shared slice is a load and a store, with the
   * mutex held around both.
   */
  datatype Phase =
    | Probing
    | Probed
    | Locked
    | Loaded(seen: seq<ProbeResult>)
    | Stored
    | Finished

  /** `holder` is the mutex; `order` records in which order the zones stored. */
  datatype State = State(phases: seq<Phase>, holder: int, shared: seq<ProbeResult>, order: seq<nat>)

  const FREE: int := -1

  ghost predicate Init(batches: seq<seq<ProbeResult>>, s: State) {
    && |s.phases| == |batches|
    && (forall i :: 0 <= i < |batches| ==> s.phases[i] == Probing)
    && s.holder == FREE && s.shared == [] && s.order == []
  }

  /** One step of goroutine `i`, whose zone's results are `batches[i]`. */
  ghost predicate StepOf(batches: seq<seq<ProbeResult>>, s: State, s': State, i: nat) {
    i < |batches| && i < |s.phases| &&
    match s.phases[i]
    case Probing => s' == s.(phases := s.phases[i := Probed])
    case Probed => s.holder == FREE && s' == s.(phases := s.phases[i := Locked], holder := i)
    case Locked => s' == s.(phases := s.phases[i := Loaded(s.shared)])
    case Loaded(seen) =>
      s' == s.(phases := s.phases[i := Stored], shared := seen + batches[i], order := s.order + [i])
    case Stored => s' == s.(phases := s.phases[i := Finished], holder := FREE)
    case Finished => false
  }

  ghost predicate Step(batches: seq<seq<ProbeResult>>, s: State, s': State) {
    exists i :: StepOf(batches, s, s', i)
  }

  /** An interleaving: every state follows from the one before by some goroutine's step. */
  ghost predicate IsRun(batches: seq<seq<ProbeResult>>, run: seq<State>) {
    run != [] &&
    if |run| == 1 then Init(batches, run[0])
    else IsRun(batches, run[..|run| - 1]) && Step(batches, run[|run| - 2], run[|run| - 1])
  }

  /** What `wg.Wait()` waits for. */
  ghost predicate AllFinished(s: State) {
    forall i :: 0 <= i < |s.phases| ==> s.phases[i].Finished?
  }

  // ----- what every step keeps -----

  /** The batches of some zones, one after the other. */
  function Gather(batches: seq<seq<ProbeResult>>, order: seq<nat>): seq<ProbeResult>
    requires forall k :: 0 <= k < |order| ==> order[k] < |batches|
  {
    if order == [] then [] else Gather(batches, order[..|order| - 1]) + batches[order[|order| - 1]]
  }

  ghost predicate Inv(batches: seq<seq<ProbeResult>>, s: State) {
    && |s.phases| == |batches|
    && -1 <= s.holder < |batches|
    && NoRepeats(s.order)
    && (forall k :: 0 <= k < |s.order| ==> s.order[k] < |batches|)
    && (forall i :: 0 <= i < |batches| ==> (i in s.order <==> s.phases[i].Stored? || s.phases[i].Finished?))
    && (forall i :: 0 <= i < |batches| ==>
          (s.holder == i <==> s.phases[i].Locked? || s.phases[i].Loaded? || s.phases[i].Stored?))
    && (forall i :: 0 <= i < |batches| && s.phases[i].Loaded? ==> s.phases[i].seen == s.shared)
    && s.shared == Gather(batches, s.order)
  }

  lemma StepKeepsInv(batches: seq<seq<ProbeResult>>, s: State, s': State, i: nat)
    requires Inv(batches, s) && StepOf(batches, s, s', i)
    ensures Inv(batches, s')
  {
    if s.phases[i].Loaded? {
      StoreKeepsInv(batches, s, s', i);
    }
  }

  lemma StoreKeepsInv(batches: seq<seq<ProbeResult>>, s: State, s': State, i: nat)
    requires Inv(batches, s) && StepOf(batches, s, s', i) && s.phases[i].Loaded?
    ensures Inv(batches, s')
  {
    assert s'.order[..|s.order|] == s.order;
    forall j | 0 <= j < |batches| ensures j in s'.order <==> s'.phases[j].Stored? || s'.phases[j].Finished? {
      assert j in s'.order <==> j in s.order || j == i;
    }
    assert s.holder == i;
  }

  lemma {:induction false} RunKeepsInv(batches: seq<seq<ProbeResult>>, run: seq<State>)
    requires IsRun(batches, run)
    ensures Inv(batches, run[|run| - 1])
  {
    if |run| > 1 {
      RunKeepsInv(batches, run[..|run| - 1]);
      var s, s' := run[|run| - 2], run[|run| - 1];
      var i :| StepOf(batches, s, s', i);
      StepKeepsInv(batches, s, s', i);
    }
  }

  /** The cycle cannot get stuck: until all zones are finished, some goroutine can step. */
  lemma SomeStepIsEnabled(batches: seq<seq<ProbeResult>>, run: seq<State>)
    requires IsRun(batches, run) && !AllFinished(run[|run| - 1])
    ensures exists s' :: IsRun(batches, run + [s'])
  {
    var s := run[|run| - 1];
    RunKeepsInv(batches, run);
    var i :| 0 <= i < |s.phases| && !s.phases[i].Finished?;
    var j := if s.phases[i].Probed? && s.holder != FREE then s.holder else i;
    var s' :=
      match s.phases[j]
      case Probing => s.(phases := s.phases[j := Probed])
      case Probed => s.(phases := s.phases[j := Locked], holder := j)
      case Locked => s.(phases := s.phases[j := Loaded(s.shared)])
      case Loaded(seen) =>
        s.(phases := s.phases[j := Stored], shared := seen + batches[j], order := s.order + [j])
      case Stored => s.(phases := s.phases[j := Finished], holder := FREE)
      case Finished => s;
    assert StepOf(batches, s, s', j);
    assert (run + [s'])[..|run|] == run;
    assert IsRun(batches, run + [s']);
  }

  // ----- the length of a cycle -----

  const STEPS: nat := 5

  function Rank(p: Phase): nat {
    match p
    case Probing => 0
    case Probed => 1
    case Locked => 2
    case Loaded(_) => 3
    case Stored => 4
    case Finished => STEPS
  }

  function Ranks(phases: seq<Phase>): nat {
    if phases == [] then 0 else Ranks(phases[..|phases| - 1]) + Rank(phases[|phases| - 1])
  }

  lemma {:induction false} RanksUpdate(phases: seq<Phase>, i: nat, p: Phase)
    requires i < |phases|
    ensures Ranks(phases[i := p]) == Ranks(phases) - Rank(phases[i]) + Rank(p)
    decreases |phases|
  {
    var n := |phases| - 1;
    if i < n {
      RanksUpdate(phases[..n], i, p);
      assert phases[i := p][..n] == phases[..n][i := p];
    } else {
      assert phases[i := p][..n] == phases[..n];
    }
  }

  ghost predicate AllIn(phases: seq<Phase>, rank: nat) {
    forall i :: 0 <= i < |phases| ==> Rank(phases[i]) == rank
  }

  lemma AllInSnoc(init: seq<Phase>, last: Phase, rank: nat)
    ensures AllIn(init + [last], rank) <==> AllIn(init, rank) && Rank(last) == rank
  {
    var all := init + [last];
    assert all[|init|] == last;
    if AllIn(all, rank) {
      forall i | 0 <= i < |init| ensures Rank(init[i]) == rank {
        assert all[i] == init[i];
      }
    }
  }

  lemma {:induction false} RanksRange(phases: seq<Phase>)
    ensures Ranks(phases) <= STEPS * |phases|
    ensures Ranks(phases) == STEPS * |phases| <==> AllIn(phases, STEPS)
    ensures AllIn(phases, 0) ==> Ranks(phases) == 0
  {
    if phases != [] {
      var init, last := phases[..|phases| - 1], phases[|phases| - 1];
      assert phases == init + [last];
      RanksRange(init);
      AllInSnoc(init, last, STEPS);
      AllInSnoc(init, last, 0);
    }
  }

  lemma {:induction false} RunCountsSteps(batches: seq<seq<ProbeResult>>, run: seq<State>)
    requires IsRun(batches, run)
    ensures |run| == 1 + Ranks(run[|run| - 1].phases)
  {
    if |run| == 1 {
      RanksRange(run[0].phases);
    } else {
      RunCountsSteps(batches, run[..|run| - 1]);
      var s, s' := run[|run| - 2], run[|run| - 1];
      var i: nat :| StepOf(batches, s, s', i);
      RanksUpdate(s.phases, i, s'.phases[i]);
      assert s'.phases == s.phases[i := s'.phases[i]];
    }
  }

  /**
   * With the lemma above: every interleaving, however it is scheduled, ends after exactly five
   * steps per zone, and ends with all zones finished.
   */
  lemma CyclesEnd(batches: seq<seq<ProbeResult>>, run: seq<State>)
    requires IsRun(batches, run)
    ensures |run| <= 1 + STEPS * |batches|
    ensures |run| == 1 + STEPS * |batches| <==> AllFinished(run[|run| - 1])
  {
    RunKeepsInv(batches, run);
    RunCountsSteps(batches, run);
    RanksRange(run[|run| - 1].phases);
  }

  // ----- the gathered results -----

  lemma {:induction false} GatherRemove(batches: seq<seq<ProbeResult>>, order: seq<nat>, k: nat)
    requires forall j :: 0 <= j < |order| ==> order[j] < |batches|
    requires k < |order|
    ensures multiset(Gather(batches, order))
         == multiset(Gather(batches, order[..k] + order[k + 1..])) + multiset(batches[order[k]])
    decreases |order|
  {
    var n := |order| - 1;
    var rest := order[..k] + order[k + 1..];
    if k < n {
      GatherRemove(batches, order[..n], k);
      assert rest[..n - 1] == order[..n][..k] + order[..n][k + 1..];
    } else {
      assert rest == order[..n];
    }
  }

  lemma {:induction false} GatherIgnoresOrder(batches: seq<seq<ProbeResult>>, a: seq<nat>, b: seq<nat>)
    requires (forall j :: 0 <= j < |a| ==> a[j] < |batches|) && (forall j :: 0 <= j < |b| ==> b[j] < |batches|)
    requires multiset(a) == multiset(b)
    ensures multiset(Gather(batches, a)) == multiset(Gather(batches, b))
    decreases |a|
  {
    if a == [] {
      assert |multiset(b)| == 0;
    } else {
      var k := FindInPermutation(a, b);
      GatherIgnoresOrder(batches, a[..|a| - 1], b[..k] + b[k + 1..]);
      GatherRemove(batches, b, k);
    }
  }

  /**
   * However the goroutines interleave, what `Wait` leaves is the zones' batches, whole and one
   * after the other, each exactly once.
   */
  lemma WaitGathersEveryBatchOnce(batches: seq<seq<ProbeResult>>, run: seq<State>)
    requires IsRun(batches, run) && AllFinished(run[|run| - 1])
    ensures
      var s := run[|run| - 1];
      && NoRepeats(s.order)
      && (forall k :: 0 <= k < |s.order| ==> s.order[k] < |batches|)
      && (forall i :: i in s.order <==> 0 <= i < |batches|)
      && s.shared == Gather(batches, s.order)
  {
    RunKeepsInv(batches, run);
  }

  /** Zone by zone the same results, in any order. */
  ghost predicate SameResults(batches: seq<seq<ProbeResult>>, batches': seq<seq<ProbeResult>>) {
    |batches| == |batches'| && forall i :: 0 <= i < |batches| ==> multiset(batches[i]) == multiset(batches'[i])
  }

  lemma {:induction false} GatherIgnoresBatchOrder(
    batches: seq<seq<ProbeResult>>, batches': seq<seq<ProbeResult>>, order: seq<nat>)
    requires SameResults(batches, batches') && forall j :: 0 <= j < |order| ==> order[j] < |batches|
    ensures multiset(Gather(batches, order)) == multiset(Gather(batches', order))
  {
    if order != [] {
      GatherIgnoresBatchOrder(batches, batches', order[..|order| - 1]);
    }
  }

  lemma RunsGatherTheSame(
    batches: seq<seq<ProbeResult>>, batches': seq<seq<ProbeResult>>, run: seq<State>, run': seq<State>)
    requires SameResults(batches, batches')
    requires IsRun(batches, run) && AllFinished(run[|run| - 1])
    requires IsRun(batches', run') && AllFinished(run'[|run'| - 1])
    ensures multiset(run[|run| - 1].shared) == multiset(run'[|run'| - 1].shared)
  {
    WaitGathersEveryBatchOnce(batches, run);
    WaitGathersEveryBatchOnce(batches', run');
    var a, b := run[|run| - 1].order, run'[|run'| - 1].order;
    SameElementsPermute(a, b);
    assert forall j :: 0 <= j < |a| ==> a[j] in a;
    assert forall j :: 0 <= j < |b| ==> b[j] in b;
    GatherIgnoresOrder(batches, a, b);
    GatherIgnoresBatchOrder(batches, batches', b);
  }

  /**
   * Two cycles in which every zone came to the same results publish the same gauges, whatever the
   * schedules and in whatever order each zone's results stand.
   */
  lemma CycleIsScheduleIndependent(
    batches: seq<seq<ProbeResult>>, batches': seq<seq<ProbeResult>>, run: seq<State>, run': seq<State>,
    zones: seq<string>, g: Gauges, h: Gauges)
    requires SameResults(batches, batches')
    requires IsRun(batches, run) && AllFinished(run[|run| - 1])
    requires IsRun(batches', run') && AllFinished(run'[|run'| - 1])
    requires Aggregates(g, zones, run[|run| - 1].shared) && Aggregates(h, zones, run'[|run'| - 1].shared)
    ensures g == h
  {
    RunsGatherTheSame(batches, batches', run, run');
    GaugesAreScheduleIndependent(g, h, zones, run[|run| - 1].shared, run'[|run'| - 1].shared);
  }
}
