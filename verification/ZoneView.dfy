/** One zone's results of one check, among everything a cycle gathers. */
module ZoneView {
  import opened Wrappers
  import opened Results
  import opened Sequences
  import opened FanOut
  import R = Runner

  predicate Mine(r: ProbeResult, zone: string, check: string) {
    r.zone == zone && r.check == check
  }

  function Own(results: seq<ProbeResult>, zone: string, check: string): seq<ProbeResult> {
    if results == [] then []
    else
      var init, last := Own(results[..|results| - 1], zone, check), results[|results| - 1];
      if Mine(last, zone, check) then init + [last] else init
  }

  /** The check whose results feed a per-zone series. */
  function CheckOf(kind: R.Kind): string {
    if kind == R.Classification then "ns_classification" else "mx"
  }

  predicate IsZoneKind(kind: R.Kind) {
    kind != R.Queries && kind != R.Timeouts
  }

  /** A result that counts for a zone's series is that zone's, and of the check behind the series. */
  lemma CountedIsMine(kind: R.Kind, labels: seq<string>, r: ProbeResult)
    requires IsZoneKind(kind) && R.LabelsOf(kind, r) == Some(labels)
    ensures labels != [] && Mine(r, labels[0], CheckOf(kind))
  {
  }

  lemma OwnSnoc(results: seq<ProbeResult>, r: ProbeResult, zone: string, check: string)
    ensures Own(results + [r], zone, check)
         == if Mine(r, zone, check) then Own(results, zone, check) + [r] else Own(results, zone, check)
  {
    assert (results + [r])[..|results|] == results;
  }

  /** Only results of this zone and check count for the series. */
  ghost predicate OnlyMine(kind: R.Kind, labels: seq<string>, zone: string, check: string) {
    forall r :: R.LabelsOf(kind, r) == Some(labels) ==> Mine(r, zone, check)
  }

  lemma {:induction false} CountIsOwnOf(
    kind: R.Kind, labels: seq<string>, results: seq<ProbeResult>, zone: string, check: string)
    requires OnlyMine(kind, labels, zone, check)
    ensures R.Count(kind, labels, results) == R.Count(kind, labels, Own(results, zone, check))
  {
    if results != [] {
      var init, r := results[..|results| - 1], results[|results| - 1];
      CountIsOwnOf(kind, labels, init, zone, check);
      assert results == init + [r];
      R.CountSnoc(kind, labels, init, r);
      OwnSnoc(init, r, zone, check);
      if Mine(r, zone, check) {
        R.CountSnoc(kind, labels, Own(init, zone, check), r);
      }
    }
  }

  lemma CountIsOwn(kind: R.Kind, labels: seq<string>, results: seq<ProbeResult>)
    requires IsZoneKind(kind) && labels != []
    ensures R.Count(kind, labels, results) == R.Count(kind, labels, Own(results, labels[0], CheckOf(kind)))
  {
    forall r | R.LabelsOf(kind, r) == Some(labels) ensures Mine(r, labels[0], CheckOf(kind)) {
      CountedIsMine(kind, labels, r);
    }
    CountIsOwnOf(kind, labels, results, labels[0], CheckOf(kind));
  }

  lemma {:induction false} RecordsAreOwn(results: seq<ProbeResult>, rec: R.MXRecord)
    ensures R.HasRecord(results, rec) <==> R.HasRecord(Own(results, rec.zone, "mx"), rec)
  {
    if results != [] {
      var init, r := results[..|results| - 1], results[|results| - 1];
      assert results == init + [r];
      RecordsAreOwn(init, rec);
    }
  }

  lemma {:induction false} CountOfConcat(kind: R.Kind, labels: seq<string>, a: seq<ProbeResult>, b: seq<ProbeResult>)
    ensures R.Count(kind, labels, a + b) == R.Count(kind, labels, a) + R.Count(kind, labels, b)
  {
    if b == [] {
      assert a + b == a;
    } else {
      assert (a + b)[..|a + b| - 1] == a + b[..|b| - 1];
      CountOfConcat(kind, labels, a, b[..|b| - 1]);
    }
  }

  lemma CountOfOne(kind: R.Kind, labels: seq<string>, r: ProbeResult)
    ensures R.Count(kind, labels, [r]) == if R.LabelsOf(kind, r) == Some(labels) then 1 else 0
  {
    assert [r][..0] == [];
  }

  // ----- after the wait -----

  lemma {:induction false} OwnOfConcat(a: seq<ProbeResult>, b: seq<ProbeResult>, zone: string, check: string)
    ensures Own(a + b, zone, check) == Own(a, zone, check) + Own(b, zone, check)
  {
    if b == [] {
      assert a + b == a;
    } else {
      assert (a + b)[..|a + b| - 1] == a + b[..|b| - 1];
      OwnOfConcat(a, b[..|b| - 1], zone, check);
    }
  }

  lemma {:induction false} OwnOfOther(batch: seq<ProbeResult>, zone: string, check: string)
    requires forall r <- batch :: r.zone != zone
    ensures Own(batch, zone, check) == []
  {
    if batch != [] {
      OwnOfOther(batch[..|batch| - 1], zone, check);
    }
  }

  /** Every result of a zone's batch carries that zone, as every prober sets it. */
  ghost predicate Labelled(batches: seq<seq<ProbeResult>>, zones: seq<string>) {
    |zones| == |batches| && forall i :: 0 <= i < |batches| ==> forall r <- batches[i] :: r.zone == zones[i]
  }

  lemma {:induction false} OwnOfGather(
    batches: seq<seq<ProbeResult>>, zones: seq<string>, order: seq<nat>, k: nat, check: string)
    requires Labelled(batches, zones) && NoRepeats(zones) && NoRepeats(order) && k < |zones|
    requires forall j :: 0 <= j < |order| ==> order[j] < |batches|
    ensures Own(Gather(batches, order), zones[k], check) == if k in order then Own(batches[k], zones[k], check) else []
  {
    if order != [] {
      var init, last := order[..|order| - 1], order[|order| - 1];
      assert order == init + [last];
      OwnOfGather(batches, zones, init, k, check);
      assert Gather(batches, order) == Gather(batches, init) + batches[last];
      OwnOfConcat(Gather(batches, init), batches[last], zones[k], check);
      if last != k {
        OwnOfOther(batches[last], zones[k], check);
      }
    }
  }

  /**
   * Whatever the schedule, what a cycle has of a zone and check is what that zone's goroutine
   * returned for it, in its own order; configured zones being distinct.
   */
  lemma WaitKeepsEachZoneWhole(
    batches: seq<seq<ProbeResult>>, zones: seq<string>, run: seq<State>, k: nat, check: string)
    requires IsRun(batches, run) && AllFinished(run[|run| - 1])
    requires Labelled(batches, zones) && NoRepeats(zones) && k < |zones|
    ensures Own(run[|run| - 1].shared, zones[k], check) == Own(batches[k], zones[k], check)
  {
    WaitGathersEveryBatchOnce(batches, run);
    OwnOfGather(batches, zones, run[|run| - 1].order, k, check);
  }
}
