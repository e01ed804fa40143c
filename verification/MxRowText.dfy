/** Row B of the MX panel, as it is written: demo/dashboard/panels_status.go. */
module MxRowText {
  import opened PromQL
  import opened StatusExpr
  import opened MxStatus

  /** A metric's series of one zone, as the source writes it. */
  function SelectorText(metric: string, zone: string): string {
    metric + "{zone=\"" + zone + "\"}"
  }

  lemma OfZoneText(metric: string, zone: string)
    ensures Text(OfZone(metric, zone)) == SelectorText(metric, zone)
  {
    var ms := [Matcher(ZONE, zone)];
    assert MatchersText(ms) == MatcherText(ms[0]) == ZONE + "=\"" + zone + "\"";
    assert metric + "{" + (ZONE + "=\"" + zone + "\"") + "}" == metric + "{zone=\"" + zone + "\"}";
  }

  lemma TestText(metric: string, zone: string, c: nat, digit: string)
    requires c < 10 && digit == Number(c)
    ensures Text(Paren(Test(OfZone(metric, zone), Eq, c)))
         == "(" + SelectorText(metric, zone) + " == bool " + digit + ")"
  {
    var e := Test(OfZone(metric, zone), Eq, c);
    OfZoneText(metric, zone);
    assert Text(e) == SelectorText(metric, zone) + " == bool " + digit;
  }

  lemma OnTexts()
    ensures OnText(On([ZONE])) == "on(zone) " && OnText(On([])) == "on() " && OnText(AllLabels) == ""
  {
    assert Commas([ZONE]) == "zone";
  }

  /** The hard predicate. */
  lemma HardText(zone: string)
    ensures Text(ResolveRow(zone).expr)
         == "(" + SelectorText("dnshealth_mx_count", zone) + " == bool "
            + SelectorText("dnshealth_mx_resolved_count", zone) + ") or on() vector(0)"
  {
    var l, r := OfZone(COUNT, zone), OfZone(RESOLVED, zone);
    OfZoneText(COUNT, zone);
    OfZoneText(RESOLVED, zone);
    OnTexts();
    Numbers();
    var b := Binary(l, EqBool, AllLabels, r);
    assert Text(b) == Text(l) + (" == bool " + "") + Text(r);
    assert Text(Paren(b)) == "(" + Text(b) + ")";
    assert Text(Const(0)) == "vector(" + "0" + ")" == "vector(0)";
    assert Text(Or(Paren(b), On([]), Const(0))) == Text(Paren(b)) + (" or " + "on() ") + "vector(0)";
    FlatHard(Text(l), Text(r));
  }

  lemma FlatHard(l: string, r: string)
    ensures "(" + (l + (" == bool " + "") + r) + ")" + (" or " + "on() ") + "vector(0)"
         == "(" + l + " == bool " + r + ") or on() vector(0)"
  {
    assert " == bool " + "" == " == bool ";
    assert ")" + (" or " + "on() ") + "vector(0)" == ") or on() vector(0)";
  }

  /** The predicate of no real targets, shared by the rows. */
  lemma NoRealTargetsText(zone: string)
    ensures Text(NoRealTargets(zone))
         == "clamp_max((" + SelectorText("dnshealth_mx_count", zone) + " == bool 0) + on(zone) ("
            + SelectorText("dnshealth_mx_null_mx", zone) + " == bool 1), 1)"
  {
    var l, r := Paren(Test(OfZone(COUNT, zone), Eq, 0)), Paren(Test(OfZone(NULL_MX, zone), Eq, 1));
    Numbers();
    OnTexts();
    TestText(COUNT, zone, 0, "0");
    TestText(NULL_MX, zone, 1, "1");
    var sum := Binary(l, Add, On([ZONE]), r);
    assert Text(sum) == Text(l) + (" + " + "on(zone) ") + Text(r);
    assert Text(ClampMax(sum, 1)) == "clamp_max(" + Text(sum) + ", " + "1" + ")";
    FlatClamp(SelectorText(COUNT, zone), SelectorText(NULL_MX, zone));
  }

  lemma FlatClamp(l: string, r: string)
    ensures "clamp_max("
            + (("(" + l + " == bool " + "0" + ")") + (" + " + "on(zone) ") + ("(" + r + " == bool " + "1" + ")"))
            + ", " + "1" + ")"
         == "clamp_max((" + l + " == bool 0) + on(zone) (" + r + " == bool 1), 1)"
  {
    assert "clamp_max(" + "(" == "clamp_max((";
    assert " == bool " + "0" + ")" + (" + " + "on(zone) ") + "(" == " == bool 0) + on(zone) (";
    assert " == bool " + "1" + ")" + ", " + "1" + ")" == " == bool 1), 1)";
  }

  /** With the no-data guard, the not-applicable predicate of the per-target rows. */
  lemma NotApplicableText(zone: string)
    ensures Text(ResolveRow(zone).na.value)
         == Text(NoRealTargets(zone)) + " or absent(" + SelectorText("dnshealth_soa_serial", zone) + ")"
  {
    var base := NoRealTargets(zone);
    OnTexts();
    OfZoneText(SOA_SERIAL, zone);
    var inner := SOA_SERIAL + "{" + MatchersText([Matcher(ZONE, zone)]) + "}";
    assert Text(OfZone(SOA_SERIAL, zone)) == inner;
    assert Text(SOANoData(zone)) == "absent(" + inner + ")";
    assert Text(Or(base, AllLabels, SOANoData(zone))) == Text(base) + (" or " + "") + Text(SOANoData(zone));
    FlatOr(Text(base), inner);
  }

  lemma FlatOr(base: string, inner: string)
    ensures base + (" or " + "") + ("absent(" + inner + ")") == base + " or absent(" + inner + ")"
  {
    assert " or " + "" == " or ";
    assert " or " + "absent(" == " or absent(";
  }
}
