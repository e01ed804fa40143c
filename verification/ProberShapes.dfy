/** The two modelled probers keep to one shape per metric: prober/mx.go, prober/ns_classification.go. */
module ProberShapes {
  import opened Results
  import opened RegistryCycle
  import Delegation
  import Mx
  import NsClassification
  import Registry

  /** The metrics of these probers; those of the others may be anything. */
  ghost predicate Describes(schema: Schema) {
    && schema("mx_info") == ("mx", {"target", "priority"})
    && schema("mx_resolves") == schema("mx_is_cname") == schema("mx_syntax_valid") == ("mx", {"target"})
    && schema("ns_classification") == schema("ns_stealth_reachable") == ("ns_classification", {"classification"})
  }

  lemma NotBuiltIn(metric: string)
    requires |metric| != |"query_success"| && |metric| != |"query_duration_seconds"|
    ensures !IsBuiltIn(metric)
  {
    assert |Registry.PREFIX + metric| != |Registry.SUCCESS| && |Registry.PREFIX + metric| != |Registry.DURATION|;
  }

  lemma ModelledNotBuiltIn()
    ensures !IsBuiltIn("mx_info") && !IsBuiltIn("mx_resolves") && !IsBuiltIn("mx_is_cname")
    ensures !IsBuiltIn("mx_syntax_valid") && !IsBuiltIn("ns_classification") && !IsBuiltIn("ns_stealth_reachable")
  {
    NotBuiltIn("mx_info");
    NotBuiltIn("mx_resolves");
    NotBuiltIn("mx_is_cname");
    NotBuiltIn("mx_syntax_valid");
    NotBuiltIn("ns_classification");
    NotBuiltIn("ns_stealth_reachable");
  }

  ghost predicate Proper(schema: Schema, results: seq<ProbeResult>, zone: string, check: string) {
    AllConform(schema, results) && forall r <- results :: r.zone == zone && r.check == check
  }

  lemma LabelNames()
    ensures "zone" != "target" && "zone" != "priority" && "zone" != "classification"
  {
    assert |"zone"| != |"target"| && |"zone"| != |"priority"| && |"zone"| != |"classification"|;
  }

  lemma MxResultsAreProper(schema: Schema, o: Mx.Oracles, zone: string, x: Mx.Exchange)
    requires Describes(schema)
    ensures Proper(schema, [Mx.Info(zone, x)], zone, "mx")
    ensures Proper(schema, [Mx.Validity(o, zone, x.target)], zone, "mx")
  {
    ModelledNotBuiltIn();
    LabelNames();
    var info, validity := Mx.Info(zone, x), Mx.Validity(o, zone, x.target);
    assert info.labels.Keys == {"target", "priority"} && validity.labels.Keys == {"target"};
    assert Conforms(schema, info) && Conforms(schema, validity);
  }

  lemma {:induction false} RecordResultsAreProper(
    schema: Schema, o: Mx.Oracles, zone: string, mxs: seq<Mx.Exchange>)
    requires Describes(schema)
    ensures Proper(schema, Mx.RecordResults(o, zone, mxs), zone, "mx")
  {
    if mxs != [] {
      var init, x := mxs[..|mxs| - 1], mxs[|mxs| - 1];
      RecordResultsAreProper(schema, o, zone, init);
      MxResultsAreProper(schema, o, zone, x);
      var info, validity := Mx.Info(zone, x), Mx.Validity(o, zone, x.target);
      assert info in [info] && validity in [validity];
      var before := Mx.RecordResults(o, zone, init);
      assert forall r <- Mx.RecordResults(o, zone, mxs) :: r in before || r in [info, validity];
    }
  }

  /** Whatever the zone answered, the MX prober's results meet what the registry theorem asks. */
  lemma MxIsProper(schema: Schema, o: Mx.Oracles, zone: string, reply: Mx.Reply)
    requires Describes(schema)
    ensures Proper(schema, Mx.ZoneResults(o, zone, reply), zone, "mx")
  {
    LabelNames();
    if reply.Answered? {
      RecordResultsAreProper(schema, o, zone, reply.mxs);
    }
  }

  lemma HostResultIsProper(
    schema: Schema, o: NsClassification.Oracles, zone: string, host: string, parents: set<string>, selves: set<string>,
    ip: string)
    requires Describes(schema)
    ensures Proper(schema, [NsClassification.HostResult(o, zone, host, parents, selves, ip)], zone, "ns_classification")
  {
    ModelledNotBuiltIn();
    LabelNames();
    var r := NsClassification.HostResult(o, zone, host, parents, selves, ip);
    assert r.labels.Keys == {"classification"};
    assert Conforms(schema, r);
  }

  /** And so do the classification prober's. */
  lemma {:induction false} ClassificationIsProper(
    schema: Schema, o: NsClassification.Oracles, zone: string, hosts: seq<string>, parents: set<string>,
    selves: set<string>, records: seq<Delegation.Nameserver>)
    requires Describes(schema)
    ensures Proper(schema, NsClassification.HostResults(o, zone, hosts, parents, selves, records), zone,
                   "ns_classification")
  {
    if hosts != [] {
      var init, host := hosts[..|hosts| - 1], hosts[|hosts| - 1];
      ClassificationIsProper(schema, o, zone, init, parents, selves, records);
      var ip := NsClassification.FirstIP(records, host);
      HostResultIsProper(schema, o, zone, host, parents, selves, ip);
      var r := NsClassification.HostResult(o, zone, host, parents, selves, ip);
      assert r in [r];
    }
  }
}
