/** What the MX prober returns, in terms of what it was told: prober/mx.go. */
module MxResults {
  import opened Wrappers
  import opened Dns
  import opened Results
  import opened Sequences
  import opened Mx
  import Priority

  /** The MX records of an Answer section, all of them, in order, targets in canonical form. */
  lemma {:induction false} ExchangesAt(answer: seq<RR>) returns (at: seq<nat>)
    ensures Increasing(at) && forall k: nat :: k in at <==> k < |answer| && answer[k].MX?
    ensures |Exchanges(answer)| == |at|
    ensures forall i :: 0 <= i < |at| ==>
              && at[i] < |answer|
              && Exchanges(answer)[i].target == CanonName(answer[at[i]].target)
              && (answer[at[i]].preference < 0x1_0000 ==> Exchanges(answer)[i].preference == answer[at[i]].preference)
  {
    at := [];
    if answer != [] {
      var init := answer[..|answer| - 1];
      at := ExchangesAt(init);
      if answer[|init|].MX? {
        IncreasingSnoc(at, |init|);
        at := at + [|init|];
      }
    }
  }

  /** The value of a 0/1 metric. */
  ghost predicate Reports(r: ProbeResult, metric: string, holds: bool) {
    metric in r.metrics && r.metrics[metric] == if holds then 1.0 else 0.0
  }

  /** A result of the zone's MX probe that is not about a server. */
  ghost predicate IsZoneWide(r: ProbeResult, zone: string) {
    r.zone == zone && r.check == "mx" && r.nameserver == "" && r.ip == "" && r.success && !r.timedOut
  }

  /** One record: its target and its five-digit preference, and the metric that says it is one. */
  ghost predicate IsInfoOf(r: ProbeResult, zone: string, x: Exchange) {
    && IsZoneWide(r, zone)
    && r.metrics == map["mx_info" := 1.0]
    && r.labels == map["target" := x.target, "priority" := Priority.Padded(x.preference)]
  }

  /**
   * One target, in the oracles' own terms: it resolves iff resolution succeeds with some address, it
   * is an alias iff the CNAME lookup succeeds with true. The root is well-formed and not looked up.
   */
  ghost predicate IsValidityOf(r: ProbeResult, o: Oracles, zone: string, target: string) {
    && IsZoneWide(r, zone)
    && r.labels == map["target" := target]
    && if target == "." then r.metrics == map["mx_syntax_valid" := 1.0]
       else
         && r.metrics.Keys == {"mx_resolves", "mx_is_cname", "mx_syntax_valid"}
         && Reports(r, "mx_resolves", HasAddress(o, target))
         && Reports(r, "mx_is_cname", o.cname(target) == Success(true))
         && Reports(r, "mx_syntax_valid", o.validSyntax(target))
  }

  lemma InfoMeans(zone: string, x: Exchange)
    ensures IsInfoOf(Info(zone, x), zone, x)
  {
  }

  lemma ValidityMeans(o: Oracles, zone: string, target: string)
    ensures IsValidityOf(Validity(o, zone, target), o, zone, target)
  {
    ResolvesIff(o, target);
    assert |"mx_resolves"| != |"mx_syntax_valid"|;
  }

  /** Is this the first record with its target? */
  ghost predicate IsNewAt(mxs: seq<Exchange>, i: nat) {
    i < |mxs| && forall j :: 0 <= j < i ==> mxs[j].target != mxs[i].target
  }

  /**
   * The results for the records: in the order of the records, one of each record, followed, at the
   * first record with its target, by one of the target; and no others.
   */
  ghost predicate AreResultsOf(results: seq<ProbeResult>, o: Oracles, zone: string, mxs: seq<Exchange>)
    decreases |mxs|
  {
    if mxs == [] then results == []
    else
      var n, i := |results| - 1, |mxs| - 1;
      if IsNewAt(mxs, i) then
        && n >= 1 && IsInfoOf(results[n - 1], zone, mxs[i]) && IsValidityOf(results[n], o, zone, mxs[i].target)
        && AreResultsOf(results[..n - 1], o, zone, mxs[..i])
      else n >= 0 && IsInfoOf(results[n], zone, mxs[i]) && AreResultsOf(results[..n], o, zone, mxs[..i])
  }

  lemma {:induction false} RecordResultsMean(o: Oracles, zone: string, mxs: seq<Exchange>)
    ensures AreResultsOf(RecordResults(o, zone, mxs), o, zone, mxs)
  {
    if mxs != [] {
      var i := |mxs| - 1;
      var init, x := mxs[..i], mxs[i];
      RecordResultsMean(o, zone, init);
      InfoMeans(zone, x);
      ValidityMeans(o, zone, x.target);
      var before, all := RecordResults(o, zone, init), RecordResults(o, zone, mxs);
      assert x.target in Targets(init) <==> !IsNewAt(mxs, i) by {
        assert forall j :: 0 <= j < i ==> init[j] in init && init[j] == mxs[j];
      }
      if x.target in Targets(init) {
        assert all == before + [Info(zone, x)] && all[..|all| - 1] == before;
      } else {
        assert all == before + [Info(zone, x), Validity(o, zone, x.target)] && all[..|all| - 2] == before;
      }
    }
  }

  /** The result about the query itself. */
  ghost predicate IsQueryResult(r: ProbeResult, zone: string, ip: string, success: bool, timedOut: bool) {
    && r.zone == zone && r.check == "mx" && r.nameserver == "" && r.ip == ip
    && r.success == success && r.timedOut == timedOut && r.metrics == map[] && r.labels == map[]
  }

  /**
   * The whole probe: one result about the query, which names the server that answered, or the last
   * that failed with whether it timed out; and after it, if some server answered, the records'.
   */
  lemma ProbeMeans(o: Oracles, zone: string, reply: Reply)
    ensures
      var results := ZoneResults(o, zone, reply);
      && results != []
      && match reply
         case Untried => |results| == 1 && IsQueryResult(results[0], zone, "", true, false)
         case Failed(ip) => |results| == 1 && IsQueryResult(results[0], zone, ip, false, o.timedOut(ip))
         case Answered(ip, mxs) =>
           IsQueryResult(results[0], zone, ip, true, false) && AreResultsOf(results[1..], o, zone, mxs)
  {
    if reply.Answered? {
      RecordResultsMean(o, zone, reply.mxs);
      assert ZoneResults(o, zone, reply)[1..] == RecordResults(o, zone, reply.mxs);
    }
  }
}
