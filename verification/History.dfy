/** No address resolution depends on what was asked before it: prober/prober.go. */
module History {
  import opened Dns
  import opened Resolver

  lemma {:induction false} WalkIgnoresPast(
    env: Env, host: string, qtype: QType, budget: nat, depth: nat, server: string, pre: seq<Query>, sent: seq<Query>)
    requires depth <= MAX_HOPS
    ensures
      var run := Resolve(env, host, qtype, budget, depth, server, sent);
      Resolve(env, host, qtype, budget, depth, server, pre + sent) == Run(run.out, pre + run.sent)
    decreases budget, MAX_HOPS - depth, 0
  {
    if depth < MAX_HOPS {
      var q := Query(server, host, qtype);
      assert pre + sent + [q] == pre + (sent + [q]);
      if env.net(server, host, qtype).Success? {
        var resp := env.net(server, host, qtype).value;
        NextIgnoresPast(env, resp, budget, pre, sent + [q]);
        var (next, tried) := NextServer(env, resp, budget, sent + [q]);
        WalkIgnoresPast(env, host, qtype, budget, depth + 1, next, pre, tried);
      }
    }
  }

  lemma {:induction false} NextIgnoresPast(env: Env, resp: Message, budget: nat, pre: seq<Query>, sent: seq<Query>)
    ensures
      var (next, tried) := NextServer(env, resp, budget, sent);
      NextServer(env, resp, budget, pre + sent) == (next, pre + tried)
    decreases budget, 0, 0
  {
    if budget > 0 {
      FallbackIgnoresPast(env, NSHosts(resp.ns), budget - 1, pre, sent);
    }
  }

  lemma {:induction false} FallbackIgnoresPast(
    env: Env, hosts: seq<string>, budget: nat, pre: seq<Query>, sent: seq<Query>)
    ensures
      var (next, tried) := OutOfBand(env, hosts, budget, sent);
      OutOfBand(env, hosts, budget, pre + sent) == (next, pre + tried)
    decreases budget, MAX_HOPS + 2, |hosts|
  {
    if hosts != [] {
      RunIgnoresPast(env, hosts[0], QA, budget, pre, sent);
      FallbackIgnoresPast(env, hosts[1..], budget, pre, ResolveFromRoot(env, hosts[0], QA, budget, sent).sent);
    }
  }

  lemma {:induction false} RunIgnoresPast(
    env: Env, host: string, qtype: QType, budget: nat, pre: seq<Query>, sent: seq<Query>)
    ensures
      var run := ResolveFromRoot(env, host, qtype, budget, sent);
      ResolveFromRoot(env, host, qtype, budget, pre + sent) == Run(run.out, pre + run.sent)
    decreases budget, MAX_HOPS + 1, 0
  {
    if env.roots != [] {
      WalkIgnoresPast(env, host, qtype, budget, 0, env.roots[0], pre, sent);
    }
  }

  lemma HostsIgnorePast(env: Env, host: string, budget: nat, pre: seq<Query>, sent: seq<Query>)
    ensures
      var run := ResolveHosts(env, host, budget, sent);
      ResolveHosts(env, host, budget, pre + sent) == Run(run.out, pre + run.sent)
  {
    RunIgnoresPast(env, Fqdn(host), QA, budget, pre, sent);
    var v4 := ResolveFromRoot(env, Fqdn(host), QA, budget, sent);
    RunIgnoresPast(env, Fqdn(host), QAAAA, budget, pre, v4.sent);
  }
}
