/** The iterative address resolver: prober/prober.go. */
module Resolver {
  import opened Wrappers
  import opened Dns

  const MAX_HOPS: nat := 10
  const DEFAULT_BUDGET: nat := 3

  /** Go's (addresses, error) pair, and all queries sent so far. Nil addresses, nil error is `Success([])`. */
  datatype Run = Run(out: Result<seq<string>>, sent: seq<Query>)

  // ----- the walk as a function -----

  /** The walk from hop `depth` at `server`, after the queries `sent`. */
  ghost function Resolve(
    env: Env, host: string, qtype: QType, budget: nat, depth: nat, server: string, sent: seq<Query>): Run
    requires depth <= MAX_HOPS
    decreases budget, MAX_HOPS - depth, 0
  {
    if depth == MAX_HOPS then Run(Failure, sent)
    else
      var asked := sent + [Query(server, host, qtype)];
      match env.net(server, host, qtype)
      case Failure => Run(Failure, asked)
      case Success(resp) =>
        var found := Addresses(resp.answer, qtype);
        if found != [] then Run(Success(found), asked)
        else
          var (next, tried) := NextServer(env, resp, budget, asked);
          if next == "" then Run(Success([]), tried)
          else Resolve(env, host, qtype, budget, depth + 1, next, tried)
  }

  /** The glued server, or else the fallback's if there is budget left for it. */
  ghost function NextServer(env: Env, resp: Message, budget: nat, sent: seq<Query>): (string, seq<Query>)
    decreases budget, 0, 0
  {
    var glued := GluedServer(env, resp);
    if glued != "" || budget == 0 then (glued, sent) else OutOfBand(env, NSHosts(resp.ns), budget - 1, sent)
  }

  /** The first listed host that resolves gives the server; "" if none does. */
  ghost function OutOfBand(env: Env, hosts: seq<string>, budget: nat, sent: seq<Query>): (string, seq<Query>)
    decreases budget, MAX_HOPS + 2, |hosts|
  {
    if hosts == [] then ("", sent)
    else
      var run := ResolveFromRoot(env, hosts[0], QA, budget, sent);
      if run.out.Success? && run.out.value != [] then (env.resolve(run.out.value[0]), run.sent)
      else OutOfBand(env, hosts[1..], budget, run.sent)
  }

  ghost function ResolveFromRoot(env: Env, host: string, qtype: QType, budget: nat, sent: seq<Query>): Run
    decreases budget, MAX_HOPS + 1, 0
  {
    if env.roots == [] then Run(Failure, sent) else Resolve(env, host, qtype, budget, 0, env.roots[0], sent)
  }

  /** Both families, IPv4 first; it fails only when both fail. The source runs it with `DEFAULT_BUDGET`. */
  ghost function ResolveHosts(env: Env, host: string, budget: nat, sent: seq<Query>): Run {
    var v4 := ResolveFromRoot(env, Fqdn(host), QA, budget, sent);
    var v6 := ResolveFromRoot(env, Fqdn(host), QAAAA, budget, v4.sent);
    Run(if v4.out.Failure? && v6.out.Failure? then Failure else Success(Usable(v4.out) + Usable(v6.out)), v6.sent)
  }

  function Usable(r: Result<seq<string>>): seq<string> {
    if r.Success? then r.value else []
  }

  // ----- the program -----

  method ResolveOneFamilyWithBudget(client: Client, host: string, qtype: QType, budget: nat)
    returns (r: Result<seq<string>>)
    requires client.env.roots != []
    modifies client
    ensures Run(r, client.sent) == ResolveFromRoot(client.env, host, qtype, budget, old(client.sent))
    decreases budget, 1, 0
  {
    var env := client.env;
    var server := env.roots[0];
    for depth := 0 to MAX_HOPS
      invariant Resolve(env, host, qtype, budget, depth, server, client.sent)
             == ResolveFromRoot(env, host, qtype, budget, old(client.sent))
    {
      var resp := client.Exchange(server, host, qtype);
      if resp.Failure? {
        return Failure;
      }
      var found := CollectAddresses(resp.value.answer, qtype);
      if |found| > 0 {
        return Success(found);
      }
      var glue := ReferralGlue(resp.value.extra);
      var nextServer := PickFromSection(env, resp.value, glue);
      if nextServer == "" && budget > 0 {
        nextServer := OutOfBandServer(client, resp.value.ns, budget - 1);
      }
      if nextServer == "" {
        return Success([]);
      }
      server := nextServer;
    }
    return Failure;
  }

  /** The glueless-referral fallback. */
  method OutOfBandServer(client: Client, section: seq<RR>, budget: nat) returns (nextServer: string)
    requires client.env.roots != []
    modifies client
    ensures (nextServer, client.sent) == OutOfBand(client.env, NSHosts(section), budget, old(client.sent))
    decreases budget, 2, 0
  {
    nextServer := "";
    for i := 0 to |section|
      invariant nextServer == ""
      invariant OutOfBand(client.env, NSHosts(section[i..]), budget, client.sent)
             == OutOfBand(client.env, NSHosts(section), budget, old(client.sent))
    {
      NSHostsUnfold(section, i);
      if !section[i].NS? {
        continue;
      }
      var ips := ResolveOneFamilyWithBudget(client, section[i].host, QA, budget);
      if ips.Failure? || |ips.value| == 0 {
        continue;
      }
      nextServer := client.env.resolve(ips.value[0]);
      return;
    }
  }

  lemma NSHostsUnfold(section: seq<RR>, i: nat)
    requires i < |section|
    ensures var hosts, rest := NSHosts(section[i..]), NSHosts(section[i + 1..]);
            if section[i].NS? then hosts != [] && hosts[0] == section[i].host && hosts[1..] == rest else hosts == rest
  {
    assert section[i..][1..] == section[i + 1..];
  }

  method ResolveHostnames(client: Client, hostname: string, budget: nat) returns (r: Result<seq<string>>)
    requires client.env.roots != []
    modifies client
    ensures Run(r, client.sent) == ResolveHosts(client.env, hostname, budget, old(client.sent))
  {
    var host := Fqdn(hostname);
    var ipv4s := ResolveOneFamilyWithBudget(client, host, QA, budget);
    var ipv6s := ResolveOneFamilyWithBudget(client, host, QAAAA, budget);
    if ipv4s.Failure? && ipv6s.Failure? {
      return Failure;
    }
    var out: seq<string> := [];
    if ipv4s.Success? {
      out := out + ipv4s.value;
    }
    if ipv6s.Success? {
      out := out + ipv6s.value;
    }
    assert out == Usable(ipv4s) + Usable(ipv6s);
    return Success(out);
  }

  // ----- query bound -----

  /** No referral names more than `n` servers. */
  ghost predicate Narrow(net: Network, n: nat) {
    forall s, host, qtype :: net(s, host, qtype).Success? ==> |NSHosts(net(s, host, qtype).value.ns)| <= n
  }

  /** The most queries one hop can cost, its own included. */
  function HopBound(n: nat, budget: nat): nat
    decreases budget, 0
  {
    if budget == 0 then 1 else 1 + n * QueryBound(n, budget - 1)
  }

  function QueryBound(n: nat, budget: nat): nat
    decreases budget, 1
  {
    MAX_HOPS * HopBound(n, budget)
  }

  lemma {:induction false} HopsAreBounded(
    env: Env, n: nat, host: string, qtype: QType, budget: nat, depth: nat, server: string, sent: seq<Query>)
    requires Narrow(env.net, n) && depth <= MAX_HOPS
    ensures |Resolve(env, host, qtype, budget, depth, server, sent).sent|
         <= |sent| + (MAX_HOPS - depth) * HopBound(n, budget)
    decreases budget, MAX_HOPS - depth, 0
  {
    if depth < MAX_HOPS {
      OneHopLess(n, budget, depth);
      if env.net(server, host, qtype).Success? {
        var resp := env.net(server, host, qtype).value;
        var asked := sent + [Query(server, host, qtype)];
        var (next, tried) := NextServer(env, resp, budget, asked);
        if budget > 0 {
          FallbacksAreBounded(env, n, NSHosts(resp.ns), budget - 1, asked);
          TimesMonotone(|NSHosts(resp.ns)|, n, QueryBound(n, budget - 1));
        }
        HopsAreBounded(env, n, host, qtype, budget, depth + 1, next, tried);
      }
    }
  }

  lemma OneHopLess(n: nat, budget: nat, depth: nat)
    requires depth < MAX_HOPS
    ensures (MAX_HOPS - depth) * HopBound(n, budget)
         == HopBound(n, budget) + (MAX_HOPS - (depth + 1)) * HopBound(n, budget)
    ensures HopBound(n, budget) >= 1 && (MAX_HOPS - (depth + 1)) * HopBound(n, budget) >= 0
  {
    TimesMonotone(0, MAX_HOPS - (depth + 1), HopBound(n, budget));
    assert budget > 0 ==> n * QueryBound(n, budget - 1) >= 0;
  }

  lemma TimesMonotone(a: nat, b: nat, c: nat)
    requires a <= b
    ensures a * c <= b * c
  {
    assert b * c == a * c + (b - a) * c;
    assert (b - a) * c >= 0;
  }

  lemma {:induction false} FallbacksAreBounded(env: Env, n: nat, hosts: seq<string>, budget: nat, sent: seq<Query>)
    requires Narrow(env.net, n)
    ensures |OutOfBand(env, hosts, budget, sent).1| <= |sent| + |hosts| * QueryBound(n, budget)
    decreases budget, MAX_HOPS + 1, 0
  {
    forall host, asked ensures |ResolveFromRoot(env, host, QA, budget, asked).sent| <= |asked| + QueryBound(n, budget) {
      if env.roots != [] {
        HopsAreBounded(env, n, host, QA, budget, 0, env.roots[0], asked);
      }
    }
    FallbacksAreWithin(env, QueryBound(n, budget), hosts, budget, sent);
  }

  /** Resolving a host costs at most `q` queries. */
  ghost predicate EachWithin(env: Env, budget: nat, q: nat) {
    forall host, sent :: |ResolveFromRoot(env, host, QA, budget, sent).sent| <= |sent| + q
  }

  lemma {:induction false} FallbacksAreWithin(env: Env, q: nat, hosts: seq<string>, budget: nat, sent: seq<Query>)
    requires EachWithin(env, budget, q)
    ensures |OutOfBand(env, hosts, budget, sent).1| <= |sent| + |hosts| * q
    decreases |hosts|
  {
    if hosts != [] {
      var run := ResolveFromRoot(env, hosts[0], QA, budget, sent);
      assert |run.sent| <= |sent| + q;
      FallbacksAreWithin(env, q, hosts[1..], budget, run.sent);
      OneLess(|hosts|, q);
      TimesMonotone(0, |hosts[1..]|, q);
    }
  }

  lemma OneLess(k: nat, bound: nat)
    requires k > 0
    ensures k * bound == bound + (k - 1) * bound
  {
  }

  /**
   * A resolution sends at most Q(b) queries, Q(0) = 10 and Q(b) = 10 * (1 + n * Q(b - 1)), on any
   * network whose referrals name at most n servers; resolving both families sends at most twice that.
   */
  lemma QueriesAreBounded(env: Env, n: nat, host: string, qtype: QType, budget: nat, sent: seq<Query>)
    requires Narrow(env.net, n)
    ensures |ResolveFromRoot(env, host, qtype, budget, sent).sent| <= |sent| + QueryBound(n, budget)
    ensures |ResolveHosts(env, host, budget, sent).sent| <= |sent| + 2 * QueryBound(n, budget)
  {
    if env.roots != [] {
      HopsAreBounded(env, n, host, qtype, budget, 0, env.roots[0], sent);
      var v4 := ResolveFromRoot(env, Fqdn(host), QA, budget, sent);
      HopsAreBounded(env, n, Fqdn(host), QA, budget, 0, env.roots[0], sent);
      HopsAreBounded(env, n, Fqdn(host), QAAAA, budget, 0, env.roots[0], v4.sent);
    }
  }

  /** The bound in closed form, for the budget the source fixes. */
  lemma DefaultBound(n: nat)
    ensures QueryBound(n, DEFAULT_BUDGET) == 10 + 100 * n + 1000 * (n * n) + 10000 * (n * n * n)
  {
    var q0, q1, q2 := QueryBound(n, 0), QueryBound(n, 1), QueryBound(n, 2);
    assert q0 == 10;
    assert q1 == 10 + 10 * (n * q0) == 10 + 100 * n;
    assert q2 == 10 + 10 * (n * q1);
    assert n * q1 == 10 * n + 100 * (n * n);
    assert n * q2 == n * (10 + 100 * n + 1000 * (n * n)) == 10 * n + 100 * (n * n) + 1000 * (n * (n * n));
    assert n * (n * n) == n * n * n;
  }

  // ----- provenance -----

  /** `addrs` is the queried family's part of an Answer section `server` sent. */
  ghost predicate Answered(env: Env, server: string, host: string, qtype: QType, addrs: seq<string>) {
    && env.net(server, host, qtype).Success?
    && addrs == Addresses(env.net(server, host, qtype).value.answer, qtype)
  }

  /** The address record of a referral that gives `addr` for one of its listed hosts. */
  ghost predicate GluedIn(resp: Message, host: string, addr: string) {
    host in NSHosts(resp.ns) && (A(host, addr) in resp.extra || AAAA(host, addr) in resp.extra)
  }

  /**
   * A set of servers that holds the root, what its members' referrals glue, and what its members
   * answer for the hosts those referrals name. Whatever is in every such set is in the least one.
   */
  ghost predicate Closed(env: Env, servers: iset<string>) {
    && (env.roots != [] ==> env.roots[0] in servers)
    && (forall s, host, qtype, ns, addr ::
          s in servers && env.net(s, host, qtype).Success? && GluedIn(env.net(s, host, qtype).value, ns, addr)
          ==> env.resolve(addr) in servers)
    && (forall s, host, qtype, ns, t, addrs ::
          s in servers && env.net(s, host, qtype).Success? && ns in NSHosts(env.net(s, host, qtype).value.ns)
          && t in servers && Answered(env, t, ns, QA, addrs) && addrs != []
          ==> env.resolve(addrs[0]) in servers)
  }

  ghost predicate FromServers(env: Env, servers: iset<string>, host: string, qtype: QType, out: Result<seq<string>>) {
    out.Success? && out.value != [] ==> exists s :: s in servers && Answered(env, s, host, qtype, out.value)
  }

  ghost predicate Inside(servers: iset<string>, sent: seq<Query>) {
    forall q <- sent :: q.server in servers
  }

  lemma {:induction false} WalkStaysInside(
    env: Env, servers: iset<string>, host: string, qtype: QType, budget: nat, depth: nat, server: string,
    sent: seq<Query>)
    requires Closed(env, servers) && server in servers && Inside(servers, sent) && depth <= MAX_HOPS
    ensures
      var run := Resolve(env, host, qtype, budget, depth, server, sent);
      FromServers(env, servers, host, qtype, run.out) && Inside(servers, run.sent)
    decreases budget, MAX_HOPS - depth, 0
  {
    if depth < MAX_HOPS && env.net(server, host, qtype).Success? {
      var resp := env.net(server, host, qtype).value;
      var asked := sent + [Query(server, host, qtype)];
      var found := Addresses(resp.answer, qtype);
      if found != [] {
        assert Answered(env, server, host, qtype, found);
      } else {
        var (next, tried) := NextServer(env, resp, budget, asked);
        if GluedServer(env, resp) != "" {
          var ns :| ns in NSHosts(resp.ns) && GlueFor(resp.extra, ns) == FirstGlued(NSHosts(resp.ns), resp.extra);
          assert GluedIn(resp, ns, GlueFor(resp.extra, ns).value);
        } else if budget > 0 {
          FallbackStaysInside(env, servers, NSHosts(resp.ns), budget - 1, asked);
        }
        if next != "" {
          WalkStaysInside(env, servers, host, qtype, budget, depth + 1, next, tried);
        }
      }
    }
  }

  lemma {:induction false} FallbackStaysInside(
    env: Env, servers: iset<string>, hosts: seq<string>, budget: nat, sent: seq<Query>)
    requires Closed(env, servers) && Inside(servers, sent)
    ensures
      var (next, tried) := OutOfBand(env, hosts, budget, sent);
      && Inside(servers, tried)
      && (next != "" ==>
            exists ns, t, addrs :: ns in hosts && t in servers && Answered(env, t, ns, QA, addrs)
                                   && addrs != [] && next == env.resolve(addrs[0]))
    decreases budget, MAX_HOPS + 1, |hosts|
  {
    if hosts != [] {
      if env.roots != [] {
        WalkStaysInside(env, servers, hosts[0], QA, budget, 0, env.roots[0], sent);
      }
      var run := ResolveFromRoot(env, hosts[0], QA, budget, sent);
      if run.out.Success? && run.out.value != [] {
        var t :| t in servers && Answered(env, t, hosts[0], QA, run.out.value);
        assert hosts[0] in hosts;
      } else {
        FallbackStaysInside(env, servers, hosts[1..], budget, run.sent);
        assert forall h <- hosts[1..] :: h in hosts;
      }
    }
  }

  /**
   * Every server asked, and the server whose Answer section is returned, is in every closed set,
   * so in the least one; and what is returned is that section's records of the asked family.
   */
  lemma AddressesHaveProvenance(
    env: Env, servers: iset<string>, host: string, qtype: QType, budget: nat, sent: seq<Query>)
    requires Closed(env, servers) && Inside(servers, sent)
    ensures FromServers(env, servers, host, qtype, ResolveFromRoot(env, host, qtype, budget, sent).out)
    ensures Inside(servers, ResolveFromRoot(env, host, qtype, budget, sent).sent)
  {
    if env.roots != [] {
      WalkStaysInside(env, servers, host, qtype, budget, 0, env.roots[0], sent);
    }
  }

  /** How two families' outcomes make up one: all of one, then all of the other, a failed one left out. */
  ghost predicate IsBoth(v4: Result<seq<string>>, v6: Result<seq<string>>, out: Result<seq<string>>) {
    match (v4, v6)
    case (Failure, Failure) => out == Failure
    case (Success(a), Failure) => out == Success(a)
    case (Failure, Success(b)) => out == Success(b)
    case (Success(a), Success(b)) =>
      && out.Success? && |out.value| == |a| + |b|
      && (forall i :: 0 <= i < |a| ==> out.value[i] == a[i])
      && (forall i :: 0 <= i < |b| ==> out.value[|a| + i] == b[i])
  }

  lemma UsableMakeBoth(v4: Result<seq<string>>, v6: Result<seq<string>>)
    ensures IsBoth(v4, v6, if v4.Failure? && v6.Failure? then Failure else Success(Usable(v4) + Usable(v6)))
  {
    if v4.Failure? {
      assert Usable(v4) + Usable(v6) == Usable(v6);
    }
    if v6.Failure? {
      assert Usable(v4) + Usable(v6) == Usable(v4);
    }
  }

  /**
   * `ResolveHostnames` returns every address of every family that did not fail, IPv4 before IPv6 and
   * in order, each family's sent by one server inside the set; it fails iff both families fail.
   */
  lemma HostnamesHaveProvenance(env: Env, servers: iset<string>, hostname: string, budget: nat, sent: seq<Query>)
    requires Closed(env, servers) && Inside(servers, sent)
    ensures
      var run := ResolveHosts(env, hostname, budget, sent);
      var host := Fqdn(hostname);
      var v4 := ResolveFromRoot(env, host, QA, budget, sent);
      var v6 := ResolveFromRoot(env, host, QAAAA, budget, v4.sent);
      && IsBoth(v4.out, v6.out, run.out) && run.sent == v6.sent
      && Inside(servers, run.sent)
      && FromServers(env, servers, host, QA, v4.out)
      && FromServers(env, servers, host, QAAAA, v6.out)
  {
    var v4 := ResolveFromRoot(env, Fqdn(hostname), QA, budget, sent);
    AddressesHaveProvenance(env, servers, Fqdn(hostname), QA, budget, sent);
    AddressesHaveProvenance(env, servers, Fqdn(hostname), QAAAA, budget, v4.sent);
    UsableMakeBoth(v4.out, ResolveFromRoot(env, Fqdn(hostname), QAAAA, budget, v4.sent).out);
  }
}
