/** The MX prober: prober/mx.go, and what a cycle publishes from it. */
module Mx {
  import opened Wrappers
  import opened Dns
  import opened Results
  import opened Delegation
  import Priority

  /**
   * What the prober asks: the Answer section of an MX query to an address, with a flag on errors
   * that were timeouts; address and CNAME lookups; and the host-name syntax check.
   */
  datatype Oracles = Oracles(
    mx: string -> Result<seq<RR>>,
    timedOut: string -> bool,
    resolve: string -> Result<seq<string>>,
    cname: string -> Result<bool>,
    validSyntax: string -> bool)

  /** One MX record of an answer, its target in canonical form. */
  datatype Exchange = Exchange(preference: Priority.Preference, target: string)

  const ROOT: string := "."

  /** `queryMX`: the MX records of the answer. A preference is 16 bits wide on the wire. */
  function Exchanges(answer: seq<RR>): seq<Exchange> {
    if answer == [] then []
    else
      var init, rr := Exchanges(answer[..|answer| - 1]), answer[|answer| - 1];
      if rr.MX? then init + [Exchange(rr.preference % 0x1_0000, CanonName(rr.target))] else init
  }

  method CollectExchanges(answer: seq<RR>) returns (mxs: seq<Exchange>)
    ensures mxs == Exchanges(answer)
  {
    mxs := [];
    for i := 0 to |answer|
      invariant mxs == Exchanges(answer[..i])
    {
      assert answer[..i + 1][..i] == answer[..i];
      if answer[i].MX? {
        mxs := mxs + [Exchange(answer[i].preference % 0x1_0000, CanonName(answer[i].target))];
      }
    }
    assert answer[..|answer|] == answer;
  }

  lemma {:induction false} ExchangesAreCanonical(answer: seq<RR>)
    ensures forall x <- Exchanges(answer) :: CanonName(x.target) == x.target
  {
    if answer != [] {
      ExchangesAreCanonical(answer[..|answer| - 1]);
      var rr := answer[|answer| - 1];
      if rr.MX? {
        CanonNameIsIdempotent(rr.target);
      }
    }
  }

  // ----- failover -----

  /** How the zone answered: no server had an address, all that had one failed, or one answered. */
  datatype Reply = Untried | Failed(ip: string) | Answered(ip: string, mxs: seq<Exchange>)

  /** The first server that answers, or else the last that failed. */
  function FirstReply(o: Oracles, servers: seq<Nameserver>): Reply {
    if servers == [] then Untried
    else
      var ip := servers[0].ip;
      var later := FirstReply(o, servers[1..]);
      if ip == "" then later
      else if o.mx(ip).Success? then Answered(ip, Exchanges(o.mx(ip).value))
      else if later.Untried? then Failed(ip)
      else later
  }

  ghost predicate Fails(o: Oracles, ns: Nameserver) {
    ns.ip == "" || o.mx(ns.ip).Failure?
  }

  /** The last server with an address. */
  ghost predicate IsLastAsked(servers: seq<Nameserver>, k: nat, ip: string) {
    k < |servers| && servers[k].ip == ip != "" && forall j :: k < j < |servers| ==> servers[j].ip == ""
  }

  ghost predicate IsFirstAnswer(o: Oracles, servers: seq<Nameserver>, k: nat, ip: string) {
    k < |servers| && servers[k].ip == ip && !Fails(o, servers[k]) && forall j :: 0 <= j < k ==> Fails(o, servers[j])
  }

  /**
   * The reply is that of the earliest server that answers, with the records of its Answer section;
   * "failed" means every address failed, and names the last.
   */
  ghost predicate IsFirstReply(o: Oracles, servers: seq<Nameserver>, reply: Reply) {
    match reply
    case Untried => forall ns <- servers :: ns.ip == ""
    case Failed(ip) => (forall ns <- servers :: Fails(o, ns)) && exists k: nat :: IsLastAsked(servers, k, ip)
    case Answered(ip, mxs) =>
      o.mx(ip).Success? && mxs == Exchanges(o.mx(ip).value) && exists k: nat :: IsFirstAnswer(o, servers, k, ip)
  }

  lemma {:induction false} FirstReplyIsFirst(o: Oracles, servers: seq<Nameserver>)
    ensures IsFirstReply(o, servers, FirstReply(o, servers))
  {
    if servers != [] {
      var ns, rest := servers[0], servers[1..];
      FirstReplyIsFirst(o, rest);
      assert servers == [ns] + rest;
      if !Fails(o, ns) {
        assert IsFirstAnswer(o, servers, 0, ns.ip);
      } else {
        OneMoreFails(o, ns, rest, FirstReply(o, rest));
        if FirstReply(o, rest).Untried? && ns.ip != "" {
          assert forall j :: 0 < j < |servers| ==> servers[j] in rest;
          assert IsLastAsked(servers, 0, ns.ip);
        }
      }
    }
  }

  lemma OneMoreFails(o: Oracles, ns: Nameserver, rest: seq<Nameserver>, later: Reply)
    requires Fails(o, ns) && IsFirstReply(o, rest, later)
    ensures !later.Untried? ==> IsFirstReply(o, [ns] + rest, later)
  {
    var all := [ns] + rest;
    assert forall j :: 0 < j < |all| ==> all[j] == rest[j - 1];
    if later.Failed? {
      var k: nat :| IsLastAsked(rest, k, later.ip);
      assert IsLastAsked(all, k + 1, later.ip);
    } else if later.Answered? {
      var k: nat :| IsFirstAnswer(o, rest, k, later.ip);
      assert IsFirstAnswer(o, all, k + 1, later.ip);
    }
  }

  lemma {:induction false} ReplyIsCanonical(o: Oracles, servers: seq<Nameserver>)
    ensures FirstReply(o, servers).Answered? ==>
              forall x <- FirstReply(o, servers).mxs :: CanonName(x.target) == x.target
  {
    if servers != [] {
      ReplyIsCanonical(o, servers[1..]);
      if o.mx(servers[0].ip).Success? {
        ExchangesAreCanonical(o.mx(servers[0].ip).value);
      }
    }
  }

  // ----- the results of one zone -----

  function Base(zone: string, ip: string, success: bool, timedOut: bool): ProbeResult {
    ProbeResult(zone, "mx", "", ip, success, timedOut, 0.0, map[], map[])
  }

  /** One per MX record. */
  function Info(zone: string, x: Exchange): ProbeResult {
    Base(zone, "", true, false).(
      metrics := map["mx_info" := 1.0],
      labels := map["target" := x.target, "priority" := Priority.Padded(x.preference)])
  }

  function Flag(b: bool): real {
    if b then 1.0 else 0.0
  }

  predicate Resolves(o: Oracles, target: string) {
    o.resolve(target).Success? && o.resolve(target).value != []
  }

  predicate IsAlias(o: Oracles, target: string) {
    o.cname(target) == Success(true)
  }

  /** Resolution succeeds and gives some address. */
  ghost predicate HasAddress(o: Oracles, target: string) {
    match o.resolve(target)
    case Failure => false
    case Success(addrs) => exists a :: a in addrs
  }

  lemma ResolvesIff(o: Oracles, target: string)
    ensures Resolves(o, target) <==> HasAddress(o, target)
  {
    if Resolves(o, target) {
      assert o.resolve(target).value[0] in o.resolve(target).value;
    }
  }

  /** One per distinct target; the root, which stands for "no mail", is not looked up. */
  function Validity(o: Oracles, zone: string, target: string): ProbeResult {
    Base(zone, "", true, false).(
      metrics :=
        if target == ROOT then map["mx_syntax_valid" := 1.0]
        else map[
          "mx_resolves" := Flag(Resolves(o, target)),
          "mx_is_cname" := Flag(IsAlias(o, target)),
          "mx_syntax_valid" := Flag(o.validSyntax(target))],
      labels := map["target" := target])
  }

  function Targets(mxs: seq<Exchange>): set<string> {
    set x <- mxs :: x.target
  }

  function RecordResults(o: Oracles, zone: string, mxs: seq<Exchange>): seq<ProbeResult> {
    if mxs == [] then []
    else
      var init, x := mxs[..|mxs| - 1], mxs[|mxs| - 1];
      RecordResults(o, zone, init)
      + [Info(zone, x)]
      + if x.target in Targets(init) then [] else [Validity(o, zone, x.target)]
  }

  function ZoneResults(o: Oracles, zone: string, reply: Reply): seq<ProbeResult> {
    match reply
    case Untried => [Base(zone, "", true, false)]
    case Failed(ip) => [Base(zone, ip, false, o.timedOut(ip))]
    case Answered(ip, mxs) => [Base(zone, ip, true, false)] + RecordResults(o, zone, mxs)
  }

  method ProbeMX(o: Oracles, zone: string, servers: seq<Nameserver>) returns (results: seq<ProbeResult>)
    ensures results == if servers == [] then [] else ZoneResults(o, zone, FirstReply(o, servers))
  {
    if |servers| == 0 {
      return [];
    }
    var reply := QueryServers(o, servers);
    if reply.Failed? {
      return [Base(zone, reply.ip, false, o.timedOut(reply.ip))];
    }
    results := [Base(zone, if reply.Answered? then reply.ip else "", true, false)];
    if reply.Answered? {
      ReplyIsCanonical(o, servers);
      var records := ProbeRecords(o, zone, reply.mxs);
      results := results + records;
    }
  }

  /** The failover loop. */
  method QueryServers(o: Oracles, servers: seq<Nameserver>) returns (reply: Reply)
    ensures reply == FirstReply(o, servers)
  {
    reply := Untried;
    for i := 0 to |servers|
      invariant !reply.Answered?
      invariant FirstReply(o, servers) ==
                  if FirstReply(o, servers[i..]).Untried? then reply else FirstReply(o, servers[i..])
    {
      assert servers[i..][1..] == servers[i + 1..];
      var ip := servers[i].ip;
      if ip == "" {
        continue;
      }
      var answer := o.mx(ip);
      if answer.Success? {
        var mxs := CollectExchanges(answer.value);
        return Answered(ip, mxs);
      }
      reply := Failed(ip);
    }
  }

  /** The loop over the records, with its caches. */
  method ProbeRecords(o: Oracles, zone: string, mxs: seq<Exchange>) returns (results: seq<ProbeResult>)
    requires forall x <- mxs :: CanonName(x.target) == x.target
    ensures results == RecordResults(o, zone, mxs)
  {
    var emitted: set<string>, cache := {}, Cache(map[], map[]);
    results := [];
    for i := 0 to |mxs|
      invariant results == RecordResults(o, zone, mxs[..i])
      invariant emitted == Targets(mxs[..i])
      invariant Sound(o, cache)
    {
      RecordResultsUnfold(o, zone, mxs, i);
      assert mxs[i] in mxs;
      var target := CanonName(mxs[i].target);
      results := results + [Info(zone, Exchange(mxs[i].preference, target))];
      if target in emitted {
        continue;
      }
      emitted := emitted + {target};
      var validity;
      validity, cache := ProbeTarget(o, zone, target, cache);
      results := results + [validity];
    }
    assert mxs[..|mxs|] == mxs;
  }

  lemma RecordResultsUnfold(o: Oracles, zone: string, mxs: seq<Exchange>, i: nat)
    requires i < |mxs|
    ensures Targets(mxs[..i + 1]) == Targets(mxs[..i]) + {mxs[i].target}
    ensures RecordResults(o, zone, mxs[..i + 1]) ==
              var before := RecordResults(o, zone, mxs[..i]) + [Info(zone, mxs[i])];
              if mxs[i].target in Targets(mxs[..i]) then before else before + [Validity(o, zone, mxs[i].target)]
  {
    assert mxs[..i + 1][..i] == mxs[..i];
    assert mxs[..i + 1] == mxs[..i] + [mxs[i]];
    assert forall s: seq<ProbeResult> :: s + [] == s;
  }

  /** Lookups already made, per target. */
  datatype Cache = Cache(resolves: map<string, bool>, alias: map<string, bool>)

  ghost predicate Sound(o: Oracles, cache: Cache) {
    && (forall t <- cache.resolves :: cache.resolves[t] == Resolves(o, t))
    && (forall t <- cache.alias :: cache.alias[t] == IsAlias(o, t))
  }

  method ProbeTarget(o: Oracles, zone: string, target: string, before: Cache)
    returns (validity: ProbeResult, cache: Cache)
    requires Sound(o, before)
    ensures validity == Validity(o, zone, target) && Sound(o, cache)
  {
    cache := before;
    validity := Base(zone, "", true, false).(labels := map["target" := target]);
    if target == ROOT {
      validity := validity.(metrics := map["mx_syntax_valid" := 1.0]);
      return;
    }
    if target !in cache.resolves {
      cache := cache.(resolves := cache.resolves[target := Resolves(o, target)]);
    }
    if target !in cache.alias {
      cache := cache.(alias := cache.alias[target := IsAlias(o, target)]);
    }
    validity := validity.(metrics := map[
      "mx_resolves" := Flag(cache.resolves[target]),
      "mx_is_cname" := Flag(cache.alias[target]),
      "mx_syntax_valid" := Flag(o.validSyntax(target))]);
  }
}
