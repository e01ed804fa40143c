/** When the referral budget matters: prober/prober.go, the glueless-referral fallback. */
module Starvation {
  import opened Wrappers
  import opened Dns
  import opened Resolver

  /**
   * Does a walk, or a fallback nested in it, meet a referral that names hosts but leads nowhere by
   * glue, with no budget left? The parameters are those of `Resolve`.
   */
  ghost predicate Starves(
    env: Env, host: string, qtype: QType, budget: nat, depth: nat, server: string, sent: seq<Query>)
    requires depth <= MAX_HOPS
    decreases budget, MAX_HOPS - depth, 0
  {
    depth < MAX_HOPS && env.net(server, host, qtype).Success? &&
    var resp := env.net(server, host, qtype).value;
    var asked := sent + [Query(server, host, qtype)];
    var (next, tried) := NextServer(env, resp, budget, asked);
    && Addresses(resp.answer, qtype) == []
    && (NextStarves(env, resp, budget, asked)
        || (next != "" && Starves(env, host, qtype, budget, depth + 1, next, tried)))
  }

  ghost predicate NextStarves(env: Env, resp: Message, budget: nat, sent: seq<Query>)
    decreases budget, 0, 0
  {
    GluedServer(env, resp) == "" &&
    if budget == 0 then NSHosts(resp.ns) != [] else FallbackStarves(env, NSHosts(resp.ns), budget - 1, sent)
  }

  ghost predicate FallbackStarves(env: Env, hosts: seq<string>, budget: nat, sent: seq<Query>)
    decreases budget, MAX_HOPS + 2, |hosts|
  {
    hosts != [] &&
    var run := ResolveFromRoot(env, hosts[0], QA, budget, sent);
    || RootStarves(env, hosts[0], QA, budget, sent)
    || (Usable(run.out) == [] && FallbackStarves(env, hosts[1..], budget, run.sent))
  }

  ghost predicate RootStarves(env: Env, host: string, qtype: QType, budget: nat, sent: seq<Query>)
    decreases budget, MAX_HOPS + 1, 0
  {
    env.roots != [] && Starves(env, host, qtype, budget, 0, env.roots[0], sent)
  }

  // ----- a run that does not starve -----

  lemma {:induction false} UnstarvedWalk(
    env: Env, host: string, qtype: QType, budget: nat, budget': nat, depth: nat, server: string, sent: seq<Query>)
    requires depth <= MAX_HOPS && budget <= budget'
    requires !Starves(env, host, qtype, budget, depth, server, sent)
    ensures Resolve(env, host, qtype, budget', depth, server, sent)
         == Resolve(env, host, qtype, budget, depth, server, sent)
    decreases budget, MAX_HOPS - depth, 0
  {
    if depth < MAX_HOPS && env.net(server, host, qtype).Success? {
      var resp := env.net(server, host, qtype).value;
      if Addresses(resp.answer, qtype) == [] {
        var asked := sent + [Query(server, host, qtype)];
        UnstarvedNext(env, resp, budget, budget', asked);
        var (next, tried) := NextServer(env, resp, budget, asked);
        if next != "" {
          UnstarvedWalk(env, host, qtype, budget, budget', depth + 1, next, tried);
        }
      }
    }
  }

  lemma {:induction false} UnstarvedNext(env: Env, resp: Message, budget: nat, budget': nat, sent: seq<Query>)
    requires budget <= budget' && !NextStarves(env, resp, budget, sent)
    ensures NextServer(env, resp, budget', sent) == NextServer(env, resp, budget, sent)
    decreases budget, 0, 0
  {
    if GluedServer(env, resp) == "" && budget > 0 {
      UnstarvedFallback(env, NSHosts(resp.ns), budget - 1, budget' - 1, sent);
    }
  }

  lemma {:induction false} UnstarvedFallback(
    env: Env, hosts: seq<string>, budget: nat, budget': nat, sent: seq<Query>)
    requires budget <= budget' && !FallbackStarves(env, hosts, budget, sent)
    ensures OutOfBand(env, hosts, budget', sent) == OutOfBand(env, hosts, budget, sent)
    decreases budget, MAX_HOPS + 2, |hosts|
  {
    if hosts != [] {
      UnstarvedRun(env, hosts[0], QA, budget, budget', sent);
      var run := ResolveFromRoot(env, hosts[0], QA, budget, sent);
      if Usable(run.out) == [] {
        UnstarvedFallback(env, hosts[1..], budget, budget', run.sent);
      }
    }
  }

  /** A resolution that does not starve is the same, query for query, under every larger budget. */
  lemma {:induction false} UnstarvedRun(
    env: Env, host: string, qtype: QType, budget: nat, budget': nat, sent: seq<Query>)
    requires budget <= budget' && !RootStarves(env, host, qtype, budget, sent)
    ensures ResolveFromRoot(env, host, qtype, budget', sent) == ResolveFromRoot(env, host, qtype, budget, sent)
    decreases budget, MAX_HOPS + 1, 0
  {
    if env.roots != [] {
      UnstarvedWalk(env, host, qtype, budget, budget', 0, env.roots[0], sent);
    }
  }

  // ----- no budget at all -----

  /** Without budget there is nothing after the referral a walk starves at. */
  lemma {:induction false} StarvedWalkFindsNothing(
    env: Env, host: string, qtype: QType, depth: nat, server: string, sent: seq<Query>)
    requires depth <= MAX_HOPS && Starves(env, host, qtype, 0, depth, server, sent)
    ensures Resolve(env, host, qtype, 0, depth, server, sent).out == Success([])
    decreases MAX_HOPS - depth
  {
    var resp := env.net(server, host, qtype).value;
    if GluedServer(env, resp) != "" {
      StarvedWalkFindsNothing(env, host, qtype, depth + 1, GluedServer(env, resp), sent + [Query(server, host, qtype)]);
    }
  }

  /** A walk that ends with addresses or an error without any fallback ends the same way under every budget. */
  lemma GlueOnlyWalkIgnoresBudget(
    env: Env, host: string, qtype: QType, budget: nat, depth: nat, server: string, sent: seq<Query>)
    requires depth <= MAX_HOPS
    requires Resolve(env, host, qtype, 0, depth, server, sent).out != Success([])
    ensures Resolve(env, host, qtype, budget, depth, server, sent) == Resolve(env, host, qtype, 0, depth, server, sent)
  {
    if Starves(env, host, qtype, 0, depth, server, sent) {
      StarvedWalkFindsNothing(env, host, qtype, depth, server, sent);
    }
    UnstarvedWalk(env, host, qtype, 0, budget, depth, server, sent);
  }

  lemma {:induction false} LogGrows(
    env: Env, host: string, qtype: QType, budget: nat, depth: nat, server: string, sent: seq<Query>)
    requires depth <= MAX_HOPS
    ensures |sent| <= |Resolve(env, host, qtype, budget, depth, server, sent).sent|
    ensures depth < MAX_HOPS ==> |sent| < |Resolve(env, host, qtype, budget, depth, server, sent).sent|
    decreases budget, MAX_HOPS - depth, 0
  {
    if depth < MAX_HOPS && env.net(server, host, qtype).Success? {
      var resp := env.net(server, host, qtype).value;
      var asked := sent + [Query(server, host, qtype)];
      var (next, tried) := NextServer(env, resp, budget, asked);
      if budget > 0 {
        FallbackLogGrows(env, NSHosts(resp.ns), budget - 1, asked);
      }
      LogGrows(env, host, qtype, budget, depth + 1, next, tried);
    }
  }

  lemma {:induction false} FallbackLogGrows(env: Env, hosts: seq<string>, budget: nat, sent: seq<Query>)
    ensures |sent| <= |OutOfBand(env, hosts, budget, sent).1|
    ensures hosts != [] && env.roots != [] ==> |sent| < |OutOfBand(env, hosts, budget, sent).1|
    decreases budget, MAX_HOPS + 2, |hosts|
  {
    if hosts != [] {
      if env.roots != [] {
        LogGrows(env, hosts[0], QA, budget, 0, env.roots[0], sent);
      }
      FallbackLogGrows(env, hosts[1..], budget, ResolveFromRoot(env, hosts[0], QA, budget, sent).sent);
    }
  }

  /** The first unit of budget shows where a walk starves without it. */
  lemma {:induction false} StarvedLogGrows(
    env: Env, host: string, qtype: QType, budget: nat, depth: nat, server: string, sent: seq<Query>)
    requires depth <= MAX_HOPS && env.roots != [] && budget > 0
    requires Starves(env, host, qtype, 0, depth, server, sent)
    ensures |Resolve(env, host, qtype, 0, depth, server, sent).sent|
          < |Resolve(env, host, qtype, budget, depth, server, sent).sent|
    decreases MAX_HOPS - depth
  {
    var resp := env.net(server, host, qtype).value;
    var asked := sent + [Query(server, host, qtype)];
    if GluedServer(env, resp) != "" {
      StarvedLogGrows(env, host, qtype, budget, depth + 1, GluedServer(env, resp), asked);
    } else {
      FallbackLogGrows(env, NSHosts(resp.ns), budget - 1, asked);
      var (next, tried) := NextServer(env, resp, budget, asked);
      LogGrows(env, host, qtype, budget, depth + 1, next, tried);
    }
  }

  /** Starving is the exact condition for the fallback to make a difference. */
  lemma FallbackMattersIff(env: Env, host: string, qtype: QType, sent: seq<Query>)
    requires env.roots != []
    ensures (forall budget ::
               ResolveFromRoot(env, host, qtype, budget, sent) == ResolveFromRoot(env, host, qtype, 0, sent))
       <==> !RootStarves(env, host, qtype, 0, sent)
  {
    if RootStarves(env, host, qtype, 0, sent) {
      StarvedLogGrows(env, host, qtype, 1, 0, env.roots[0], sent);
      assert ResolveFromRoot(env, host, qtype, 1, sent) != ResolveFromRoot(env, host, qtype, 0, sent);
    } else {
      forall budget: nat
        ensures ResolveFromRoot(env, host, qtype, budget, sent) == ResolveFromRoot(env, host, qtype, 0, sent)
      {
        UnstarvedRun(env, host, qtype, 0, budget, sent);
      }
    }
  }
}
