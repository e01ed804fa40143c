/** Which server each walk asks next, and when it gives up: prober/prober.go, prober/spf_resolve.go. */
module NextHop {
  import opened Wrappers
  import opened Dns
  import opened Resolver
  import opened Walkers
  import Delegation
  import History

  // ----- the fallbacks -----

  /** What resolving a host comes to, whenever it is asked: its IPv4 addresses, or those of both families. */
  ghost function IPv4Of(env: Env, host: string, budget: nat): seq<string> {
    Usable(ResolveFromRoot(env, host, QA, budget, []).out)
  }

  ghost function AddressesOf(env: Env, host: string, budget: nat): seq<string> {
    Usable(ResolveHosts(env, host, budget, []).out)
  }

  /** The first host with an address; its first address is the one used. */
  ghost predicate TakesFirst(env: Env, found: seq<seq<string>>, next: string) {
    || (exists i :: 0 <= i < |found| && found[i] != [] && next == env.resolve(found[i][0])
                    && forall j :: 0 <= j < i ==> found[j] == [])
    || (next == "" && forall i :: 0 <= i < |found| ==> found[i] == [])
  }

  lemma TakesFirstCons(env: Env, one: seq<string>, found: seq<seq<string>>, next: string)
    requires if one != [] then next == env.resolve(one[0]) else TakesFirst(env, found, next)
    ensures TakesFirst(env, [one] + found, next)
  {
    var all := [one] + found;
    if one != [] {
      assert all[0] == one;
    } else if i :| 0 <= i < |found| && found[i] != [] && next == env.resolve(found[i][0])
                   && forall j :: 0 <= j < i ==> found[j] == [] {
      assert all[i + 1] == found[i];
      forall j | 0 <= j < i + 1 ensures all[j] == [] {
        assert j > 0 ==> all[j] == found[j - 1];
      }
    }
  }

  ghost function EachIPv4(env: Env, hosts: seq<string>, budget: nat): seq<seq<string>> {
    if hosts == [] then [] else [IPv4Of(env, hosts[0], budget)] + EachIPv4(env, hosts[1..], budget)
  }

  ghost function EachHost(env: Env, hosts: seq<string>, budget: nat): seq<seq<string>> {
    if hosts == [] then [] else [AddressesOf(env, hosts[0], budget)] + EachHost(env, hosts[1..], budget)
  }

  /**
   * The resolver's fallback: the first listed host that has an IPv4 address, on one budget less, and
   * of those its first; no server if none has.
   */
  lemma {:induction false} FallbackTakesFirst(env: Env, hosts: seq<string>, budget: nat, sent: seq<Query>)
    ensures TakesFirst(env, EachIPv4(env, hosts, budget), OutOfBand(env, hosts, budget, sent).0)
    decreases |hosts|
  {
    if hosts != [] {
      var run := ResolveFromRoot(env, hosts[0], QA, budget, sent);
      History.RunIgnoresPast(env, hosts[0], QA, budget, sent, []);
      assert sent + [] == sent;
      FallbackTakesFirst(env, hosts[1..], budget, run.sent);
      TakesFirstCons(env, IPv4Of(env, hosts[0], budget), EachIPv4(env, hosts[1..], budget),
                     OutOfBand(env, hosts, budget, sent).0);
    }
  }

  /** The TXT resolver's: the first listed host that has an address of either family, IPv4 first. */
  lemma {:induction false} AnyResolvedTakesFirst(env: Env, hosts: seq<string>, budget: nat, sent: seq<Query>)
    ensures TakesFirst(env, EachHost(env, hosts, budget), AnyResolved(env, hosts, budget, sent).0)
    decreases |hosts|
  {
    if hosts != [] {
      var run := ResolveHosts(env, hosts[0], budget, sent);
      History.HostsIgnorePast(env, hosts[0], budget, sent, []);
      assert sent + [] == sent;
      AnyResolvedTakesFirst(env, hosts[1..], budget, run.sent);
      TakesFirstCons(env, AddressesOf(env, hosts[0], budget), EachHost(env, hosts[1..], budget),
                     AnyResolved(env, hosts, budget, sent).0);
    }
  }

  /** The first listed host with glue, if any; where that glue leads, if anywhere. */
  ghost predicate IsGlued(env: Env, resp: Message, next: string) {
    var hosts := NSHosts(resp.ns);
    || (exists i :: 0 <= i < |hosts| && GlueFor(resp.extra, hosts[i]).Some?
                    && next == env.resolve(GlueFor(resp.extra, hosts[i]).value)
                    && forall j :: 0 <= j < i ==> GlueFor(resp.extra, hosts[j]).None?)
    || (next == "" && forall i :: 0 <= i < |hosts| ==> GlueFor(resp.extra, hosts[i]).None?)
  }

  lemma GluedServerIsGlued(env: Env, resp: Message)
    ensures IsGlued(env, resp, GluedServer(env, resp))
  {
    if FirstGlued(NSHosts(resp.ns), resp.extra).Some? {
      var i := FirstGluedIndex(NSHosts(resp.ns), resp.extra);
    }
  }

  /** The resolver goes where glue leads, or, where it leads nowhere, on what budget there is, by its fallback. */
  lemma ResolverTakesNext(env: Env, resp: Message, budget: nat, sent: seq<Query>, glued: string)
    requires glued == GluedServer(env, resp)
    ensures
      var (next, asked) := Resolver.NextServer(env, resp, budget, sent);
      && IsGlued(env, resp, glued)
      && (glued != "" || budget == 0 ==> next == glued && asked == sent)
      && (glued == "" && budget > 0 ==> TakesFirst(env, EachIPv4(env, NSHosts(resp.ns), budget - 1), next))
  {
    GluedServerIsGlued(env, resp);
    if budget > 0 {
      FallbackTakesFirst(env, NSHosts(resp.ns), budget - 1, sent);
    }
  }

  /** The TXT resolver resolves a host only if no listed host has glue, whether or not glue leads anywhere. */
  lemma TXTTakesNext(env: Env, resp: Message, budget: nat, sent: seq<Query>)
    ensures
      var (next, asked) := NextTXTServer(env, resp, budget, sent);
      if exists h <- NSHosts(resp.ns) :: GlueFor(resp.extra, h).Some? then IsGlued(env, resp, next) && asked == sent
      else TakesFirst(env, EachHost(env, NSHosts(resp.ns), budget), next)
  {
    GluedServerIsGlued(env, resp);
    AnyResolvedTakesFirst(env, NSHosts(resp.ns), budget, sent);
  }

  /** The first address that maps to a server. */
  ghost predicate MapsFirst(env: Env, addrs: seq<string>, next: string) {
    || (exists i :: 0 <= i < |addrs| && next == env.resolve(addrs[i]) != ""
                    && forall j :: 0 <= j < i ==> env.resolve(addrs[j]) == "")
    || (next == "" && forall i :: 0 <= i < |addrs| ==> env.resolve(addrs[i]) == "")
  }

  lemma {:induction false} FirstResolvedIsFirst(env: Env, addrs: seq<string>)
    ensures MapsFirst(env, addrs, Delegation.FirstResolved(env, addrs))
  {
    if addrs != [] && env.resolve(addrs[0]) == "" {
      var rest, next := addrs[1..], Delegation.FirstResolved(env, addrs);
      FirstResolvedIsFirst(env, rest);
      if i :| 0 <= i < |rest| && next == env.resolve(rest[i]) != ""
              && forall j :: 0 <= j < i ==> env.resolve(rest[j]) == "" {
        assert addrs[i + 1] == rest[i];
        forall j | 0 <= j < i + 1 ensures env.resolve(addrs[j]) == "" {
          assert j > 0 ==> addrs[j] == rest[j - 1];
        }
      } else {
        assert forall i :: 0 < i < |addrs| ==> addrs[i] == rest[i - 1];
      }
    }
  }

  /** What a server says about a host's addresses of a family: none, or those of its Answer section. */
  ghost predicate Gives(env: Env, server: string, host: string, qtype: QType, next: string) {
    match env.net(server, host, qtype)
    case Failure => next == ""
    case Success(resp) => MapsFirst(env, Addresses(resp.answer, qtype), next)
  }

  lemma FallbackGives(env: Env, server: string, host: string, qtype: QType)
    ensures Gives(env, server, host, qtype, Delegation.Fallback(env, server, host, qtype))
  {
    if env.net(server, host, qtype).Success? {
      FirstResolvedIsFirst(env, Addresses(env.net(server, host, qtype).value.answer, qtype));
    }
  }

  /**
   * The delegation walk's choice: glue, without a query; or else the referring server's word on the
   * first listed host, its A answer, and only if that leads nowhere its AAAA answer.
   */
  lemma DelegationTakesFirst(env: Env, server: string, resp: Message, sent: seq<Query>)
    requires NSHosts(resp.ns) != []
    ensures
      var (next, asked) := Delegation.NextServer(env, server, resp, sent);
      var host := NSHosts(resp.ns)[0];
      var viaA, viaAAAA := Query(server, host, QA), Query(server, host, QAAAA);
      || (next == GluedServer(env, resp) != "" && asked == sent)
      || (GluedServer(env, resp) == "" && next != "" && Gives(env, server, host, QA, next) && asked == sent + [viaA])
      || (GluedServer(env, resp) == "" && Gives(env, server, host, QA, "")
          && Gives(env, server, host, QAAAA, next) && asked == sent + [viaA, viaAAAA])
  {
    var host := NSHosts(resp.ns)[0];
    FallbackGives(env, server, host, QA);
    FallbackGives(env, server, host, QAAAA);
    assert sent + [Query(server, host, QA)] + [Query(server, host, QAAAA)]
        == sent + [Query(server, host, QA), Query(server, host, QAAAA)];
  }

  // ----- the hop limits -----

  /** Where every server refers on by glue, a resolution asks ten times and errs. */
  lemma {:induction false} ResolverGivesUp(
    env: Env, host: string, qtype: QType, budget: nat, depth: nat, server: string, sent: seq<Query>)
    requires depth <= 10
    requires forall s ::
      env.net(s, host, qtype).Success? && Addresses(env.net(s, host, qtype).value.answer, qtype) == []
      && GluedServer(env, env.net(s, host, qtype).value) != ""
    ensures
      var run := Resolve(env, host, qtype, budget, depth, server, sent);
      run.out == Failure && |run.sent| == |sent| + (10 - depth)
    decreases 10 - depth
  {
    if depth < 10 {
      ResolverGivesUp(env, host, qtype, budget, depth + 1, GluedServer(env, env.net(server, host, qtype).value),
                      sent + [Query(server, host, qtype)]);
    }
  }

  /** So does a CNAME lookup. */
  lemma {:induction false} LookupGivesUp(env: Env, host: string, depth: nat, server: string, sent: seq<Query>)
    requires depth <= 10
    requires forall s ::
      env.net(s, host, QCNAME).Success? && !HasCNAME(env.net(s, host, QCNAME).value.answer)
      && GluedServer(env, env.net(s, host, QCNAME).value) != ""
    ensures
      var (out, asked) := CNAMEWalk(env, host, depth, server, sent);
      out == Failure && |asked| == |sent| + (10 - depth)
    decreases 10 - depth
  {
    if depth < 10 {
      LookupGivesUp(env, host, depth + 1, GluedServer(env, env.net(server, host, QCNAME).value),
                    sent + [Query(server, host, QCNAME)]);
    }
  }

  /** And a delegation walk. */
  lemma {:induction false} DelegationGivesUp(env: Env, zone: string, depth: nat, server: string, sent: seq<Query>)
    requires depth <= 10
    requires forall s :: env.net(s, zone, QNS).Success? && Delegation.Judged(s, zone, env.net(s, zone, QNS).value).None?
                         && GluedServer(env, env.net(s, zone, QNS).value) != ""
    ensures
      var (out, asked) := Delegation.Walk(env, zone, depth, server, sent);
      out == Failure && |asked| == |sent| + (10 - depth)
    decreases 10 - depth
  {
    if depth < 10 {
      DelegationGivesUp(env, zone, depth + 1, GluedServer(env, env.net(server, zone, QNS).value),
                        sent + [Query(server, zone, QNS)]);
    }
  }

  /** A TXT resolution asks sixteen times, if no server refers to itself, and has no records. */
  lemma {:induction false} TXTGivesUp(
    env: Env, name: string, budget: nat, hop: nat, server: string, sent: seq<Query>)
    requires hop <= 16
    requires forall s ::
      && env.net(s, name, QTXT).Success? && TXTAnswer(env.net(s, name, QTXT).value).None?
      && GluedServer(env, env.net(s, name, QTXT).value) !in {"", s}
    ensures
      var (records, asked) := TXTWalk(env, name, budget, hop, server, sent);
      records == [] && |asked| == |sent| + (16 - hop)
    decreases 16 - hop
  {
    if hop < 16 {
      TXTGivesUp(env, name, budget, hop + 1, GluedServer(env, env.net(server, name, QTXT).value),
                 sent + [Query(server, name, QTXT)]);
    }
  }
}
