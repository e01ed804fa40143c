/** Where the strings of a TXT resolution come from: prober/spf_resolve.go. */
module TxtProvenance {
  import opened Wrappers
  import opened Dns
  import opened Resolver
  import opened Walkers

  /**
   * A set of servers closed for address resolutions, and moreover under what its members answer, in
   * either family, for the hosts their referrals name. Whatever is in every such set is in the least.
   */
  ghost predicate ClosedForTXT(env: Env, servers: iset<string>) {
    && Closed(env, servers)
    && (forall s, name, qtype, ns, t, family, addrs ::
          s in servers && env.net(s, name, qtype).Success? && ns in NSHosts(env.net(s, name, qtype).value.ns)
          && t in servers && Answered(env, t, Fqdn(ns), family, addrs) && addrs != []
          ==> env.resolve(addrs[0]) in servers)
  }

  /** The first address of a host's two families is the first of one member's Answer section. */
  lemma FirstAddressIsAnswered(env: Env, servers: iset<string>, host: string, budget: nat, sent: seq<Query>)
    requires ClosedForTXT(env, servers) && Inside(servers, sent)
    ensures
      var run := ResolveHosts(env, host, budget, sent);
      && Inside(servers, run.sent)
      && (run.out.Success? && run.out.value != [] ==>
            exists t, family, addrs ::
              && t in servers && Answered(env, t, Fqdn(host), family, addrs)
              && addrs != [] && run.out.value[0] == addrs[0])
  {
    var v4 := ResolveFromRoot(env, Fqdn(host), QA, budget, sent);
    var v6 := ResolveFromRoot(env, Fqdn(host), QAAAA, budget, v4.sent);
    AddressesHaveProvenance(env, servers, Fqdn(host), QA, budget, sent);
    AddressesHaveProvenance(env, servers, Fqdn(host), QAAAA, budget, v4.sent);
    if Usable(v4.out) != [] {
      var t :| t in servers && Answered(env, t, Fqdn(host), QA, v4.out.value);
      assert (Usable(v4.out) + Usable(v6.out))[0] == v4.out.value[0];
    } else if Usable(v6.out) != [] {
      var t :| t in servers && Answered(env, t, Fqdn(host), QAAAA, v6.out.value);
      assert (Usable(v4.out) + Usable(v6.out))[0] == v6.out.value[0];
    }
  }

  /** The hosts come from a member's referral; so do the servers they resolve to, and all they cost. */
  lemma {:induction false} AnyResolvedStaysInside(
    env: Env, servers: iset<string>, s: string, name: string, hosts: seq<string>, budget: nat, sent: seq<Query>)
    requires ClosedForTXT(env, servers) && Inside(servers, sent)
    requires s in servers && env.net(s, name, QTXT).Success?
    requires forall h <- hosts :: h in NSHosts(env.net(s, name, QTXT).value.ns)
    ensures
      var (next, tried) := AnyResolved(env, hosts, budget, sent);
      Inside(servers, tried) && (next != "" ==> next in servers)
    decreases |hosts|
  {
    if hosts != [] {
      var run := ResolveHosts(env, hosts[0], budget, sent);
      FirstAddressIsAnswered(env, servers, hosts[0], budget, sent);
      if run.out.Success? && run.out.value != [] {
        var t, family, addrs :|
          && t in servers && Answered(env, t, Fqdn(hosts[0]), family, addrs)
          && addrs != [] && run.out.value[0] == addrs[0];
        assert hosts[0] in NSHosts(env.net(s, name, QTXT).value.ns);
      } else {
        assert forall h <- hosts[1..] :: h in hosts;
        AnyResolvedStaysInside(env, servers, s, name, hosts[1..], budget, run.sent);
      }
    }
  }

  lemma NextStaysInside(
    env: Env, servers: iset<string>, s: string, name: string, resp: Message, budget: nat, sent: seq<Query>)
    requires ClosedForTXT(env, servers) && Inside(servers, sent)
    requires s in servers && env.net(s, name, QTXT) == Success(resp)
    ensures
      var (next, tried) := NextTXTServer(env, resp, budget, sent);
      Inside(servers, tried) && (next != "" ==> next in servers)
  {
    var hosts := NSHosts(resp.ns);
    if FirstGlued(hosts, resp.extra).Some? {
      var ns :| ns in hosts && GlueFor(resp.extra, ns) == FirstGlued(hosts, resp.extra);
      assert GluedIn(resp, ns, GlueFor(resp.extra, ns).value);
    } else {
      AnyResolvedStaysInside(env, servers, s, name, hosts, budget, sent);
    }
  }

  /**
   * The records are the TXT data, in order, of a final reply with a good code (or NXDOMAIN), which a
   * member of the set gave to the last question of the log.
   */
  ghost predicate ReadFromLastReply(
    env: Env, servers: iset<string>, name: string, records: seq<string>, log: seq<Query>)
  {
    records != [] ==>
      && log != []
      && var q := log[|log| - 1];
         && q == Query(q.server, name, QTXT) && q.server in servers
         && env.net(q.server, name, QTXT).Success?
         && var resp := env.net(q.server, name, QTXT).value;
            resp.rcode in {NoError, NXDomain} && IsFinal(resp) && records == TextRecords(resp.answer)
  }

  lemma FinalReply(env: Env, servers: iset<string>, name: string, s: string, resp: Message, sent: seq<Query>)
    requires s in servers && env.net(s, name, QTXT) == Success(resp) && TXTAnswer(resp).Some?
    ensures ReadFromLastReply(env, servers, name, TXTAnswer(resp).value, sent + [Query(s, name, QTXT)])
  {
  }

  lemma {:induction false} TXTWalkHasProvenance(
    env: Env, servers: iset<string>, name: string, budget: nat, hop: nat, server: string, sent: seq<Query>)
    requires ClosedForTXT(env, servers) && Inside(servers, sent) && server in servers && hop <= TXT_HOPS
    ensures
      var (records, log) := TXTWalk(env, name, budget, hop, server, sent);
      Inside(servers, log) && ReadFromLastReply(env, servers, name, records, log)
    decreases TXT_HOPS - hop
  {
    if hop < TXT_HOPS && env.net(server, name, QTXT).Success? {
      var resp := env.net(server, name, QTXT).value;
      var asked := sent + [Query(server, name, QTXT)];
      if TXTAnswer(resp).Some? {
        FinalReply(env, servers, name, server, resp, sent);
      } else {
        NextStaysInside(env, servers, server, name, resp, budget, asked);
        var (next, tried) := NextTXTServer(env, resp, budget, asked);
        if next != "" && next != server {
          TXTWalkHasProvenance(env, servers, name, budget, hop + 1, next, tried);
        }
      }
    }
  }

  /** A TXT resolution asks, and believes, only servers that the root leads to. */
  lemma TXTHasProvenance(env: Env, servers: iset<string>, name: string, budget: nat, sent: seq<Query>)
    requires ClosedForTXT(env, servers) && Inside(servers, sent)
    ensures
      var (records, log) := TXTFromRoot(env, name, budget, sent);
      Inside(servers, log) && ReadFromLastReply(env, servers, Fqdn(name), records, log)
  {
    if env.roots != [] {
      TXTWalkHasProvenance(env, servers, Fqdn(name), budget, 0, env.roots[0], sent);
    }
  }
}
