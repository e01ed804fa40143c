/** Which resolutions a resolution runs inside which hop, and when the budget shows: prober/prober.go. */
module Nesting {
  import opened Wrappers
  import opened Dns
  import opened Resolver
  import opened Starvation

  /** A walk, hop by hop: the query, and the resolutions its reply's fallback ran before the next hop. */
  datatype Trace = End | Hop(query: Query, nested: Calls, rest: Trace)

  datatype Calls = NoCalls | Call(walk: Trace, others: Calls)

  /** The trace of `Resolve`, with its parameters. */
  ghost function WalkTrace(
    env: Env, host: string, qtype: QType, budget: nat, depth: nat, server: string, sent: seq<Query>): Trace
    requires depth <= MAX_HOPS
    decreases budget, MAX_HOPS - depth, 0
  {
    if depth == MAX_HOPS then End
    else
      var q := Query(server, host, qtype);
      match env.net(server, host, qtype)
      case Failure => Hop(q, NoCalls, End)
      case Success(resp) =>
        if Addresses(resp.answer, qtype) != [] then Hop(q, NoCalls, End)
        else
          var (next, tried) := NextServer(env, resp, budget, sent + [q]);
          var rest := if next == "" then End else WalkTrace(env, host, qtype, budget, depth + 1, next, tried);
          Hop(q, NextCalls(env, resp, budget, sent + [q]), rest)
  }

  ghost function NextCalls(env: Env, resp: Message, budget: nat, sent: seq<Query>): Calls
    decreases budget, 0, 0
  {
    if GluedServer(env, resp) != "" || budget == 0 then NoCalls
    else FallbackCalls(env, NSHosts(resp.ns), budget - 1, sent)
  }

  ghost function FallbackCalls(env: Env, hosts: seq<string>, budget: nat, sent: seq<Query>): Calls
    decreases budget, MAX_HOPS + 2, |hosts|
  {
    if hosts == [] then NoCalls
    else
      var run := ResolveFromRoot(env, hosts[0], QA, budget, sent);
      var others := if Usable(run.out) != [] then NoCalls else FallbackCalls(env, hosts[1..], budget, run.sent);
      Call(RunTrace(env, hosts[0], QA, budget, sent), others)
  }

  ghost function RunTrace(env: Env, host: string, qtype: QType, budget: nat, sent: seq<Query>): Trace
    decreases budget, MAX_HOPS + 1, 0
  {
    if env.roots == [] then End else WalkTrace(env, host, qtype, budget, 0, env.roots[0], sent)
  }

  ghost predicate IsReferral(env: Env, host: string, qtype: QType, server: string) {
    && env.net(server, host, qtype).Success?
    && Addresses(env.net(server, host, qtype).value.answer, qtype) == []
  }

  /** One hop at a referral: its calls, and the walk from the server they or its glue lead to. */
  lemma ReferralHop(
    env: Env, host: string, qtype: QType, budget: nat, depth: nat, server: string, sent: seq<Query>, resp: Message)
    requires depth < MAX_HOPS && IsReferral(env, host, qtype, server)
    requires resp == env.net(server, host, qtype).value
    ensures
      var asked := sent + [Query(server, host, qtype)];
      var (next, tried) := NextServer(env, resp, budget, asked);
      var rest := if next == "" then End else WalkTrace(env, host, qtype, budget, depth + 1, next, tried);
      && WalkTrace(env, host, qtype, budget, depth, server, sent)
         == Hop(Query(server, host, qtype), NextCalls(env, resp, budget, asked), rest)
      && Resolve(env, host, qtype, budget, depth, server, sent)
         == (if next == "" then Run(Success([]), tried)
             else Resolve(env, host, qtype, budget, depth + 1, next, tried))
      && (Starves(env, host, qtype, budget, depth, server, sent) <==>
            || NextStarves(env, resp, budget, asked)
            || (next != "" && Starves(env, host, qtype, budget, depth + 1, next, tried)))
  {
  }

  lemma LastHop(
    env: Env, host: string, qtype: QType, budget: nat, depth: nat, server: string, sent: seq<Query>)
    requires depth < MAX_HOPS && !IsReferral(env, host, qtype, server)
    ensures !Starves(env, host, qtype, budget, depth, server, sent)
    ensures WalkTrace(env, host, qtype, budget, depth, server, sent) == Hop(Query(server, host, qtype), NoCalls, End)
    ensures Resolve(env, host, qtype, budget, depth, server, sent).sent == sent + [Query(server, host, qtype)]
  {
  }

  // ----- a trace read from left to right is the log -----

  function Queries(t: Trace): seq<Query> {
    match t
    case End => []
    case Hop(q, nested, rest) => [q] + QueriesOfCalls(nested) + Queries(rest)
  }

  function QueriesOfCalls(calls: Calls): seq<Query> {
    match calls
    case NoCalls => []
    case Call(walk, others) => Queries(walk) + QueriesOfCalls(others)
  }

  lemma HopIsLog(sent: seq<Query>, q: Query, calls: Calls, rest: Trace)
    ensures sent + Queries(Hop(q, calls, rest)) == sent + [q] + QueriesOfCalls(calls) + Queries(rest)
  {
  }

  /** One hop: if the walk from the next server on is the log, so is the walk. */
  lemma ReferralIsLog(
    env: Env, host: string, qtype: QType, budget: nat, depth: nat, server: string, sent: seq<Query>, resp: Message)
    requires depth < MAX_HOPS && IsReferral(env, host, qtype, server)
    requires resp == env.net(server, host, qtype).value
    requires
      var (next, tried) := NextServer(env, resp, budget, sent + [Query(server, host, qtype)]);
      && tried == sent + [Query(server, host, qtype)]
                  + QueriesOfCalls(NextCalls(env, resp, budget, sent + [Query(server, host, qtype)]))
      && (next != "" ==> IsLog(env, host, qtype, budget, depth + 1, next, tried))
    ensures IsLog(env, host, qtype, budget, depth, server, sent)
  {
    var q := Query(server, host, qtype);
    var (next, tried) := NextServer(env, resp, budget, sent + [q]);
    var rest := if next == "" then End else WalkTrace(env, host, qtype, budget, depth + 1, next, tried);
    ReferralHop(env, host, qtype, budget, depth, server, sent, resp);
    HopIsLog(sent, q, NextCalls(env, resp, budget, sent + [q]), rest);
  }

  ghost predicate IsLog(
    env: Env, host: string, qtype: QType, budget: nat, depth: nat, server: string, sent: seq<Query>)
    requires depth <= MAX_HOPS
  {
    Resolve(env, host, qtype, budget, depth, server, sent).sent
    == sent + Queries(WalkTrace(env, host, qtype, budget, depth, server, sent))
  }

  lemma {:induction false} WalkTraceIsLog(
    env: Env, host: string, qtype: QType, budget: nat, depth: nat, server: string, sent: seq<Query>)
    requires depth <= MAX_HOPS
    ensures IsLog(env, host, qtype, budget, depth, server, sent)
    decreases budget, MAX_HOPS - depth, 0
  {
    if depth < MAX_HOPS && IsReferral(env, host, qtype, server) {
      var resp, asked := env.net(server, host, qtype).value, sent + [Query(server, host, qtype)];
      var (next, tried) := NextServer(env, resp, budget, asked);
      NextCallsAreLog(env, resp, budget, asked);
      if next != "" {
        WalkTraceIsLog(env, host, qtype, budget, depth + 1, next, tried);
      }
      ReferralIsLog(env, host, qtype, budget, depth, server, sent, resp);
    } else if depth < MAX_HOPS {
      LastHop(env, host, qtype, budget, depth, server, sent);
    }
  }

  lemma {:induction false} NextCallsAreLog(env: Env, resp: Message, budget: nat, sent: seq<Query>)
    ensures NextServer(env, resp, budget, sent).1 == sent + QueriesOfCalls(NextCalls(env, resp, budget, sent))
    decreases budget, 0, 0
  {
    if GluedServer(env, resp) == "" && budget > 0 {
      FallbackCallsAreLog(env, NSHosts(resp.ns), budget - 1, sent);
    }
  }

  lemma {:induction false} FallbackCallsAreLog(env: Env, hosts: seq<string>, budget: nat, sent: seq<Query>)
    ensures OutOfBand(env, hosts, budget, sent).1 == sent + QueriesOfCalls(FallbackCalls(env, hosts, budget, sent))
    decreases budget, MAX_HOPS + 2, |hosts|
  {
    if hosts != [] {
      TraceIsLog(env, hosts[0], QA, budget, sent);
      var run := ResolveFromRoot(env, hosts[0], QA, budget, sent);
      if Usable(run.out) == [] {
        FallbackCallsAreLog(env, hosts[1..], budget, run.sent);
      }
    }
  }

  lemma {:induction false} TraceIsLog(env: Env, host: string, qtype: QType, budget: nat, sent: seq<Query>)
    ensures ResolveFromRoot(env, host, qtype, budget, sent).sent
         == sent + Queries(RunTrace(env, host, qtype, budget, sent))
    decreases budget, MAX_HOPS + 1, 0
  {
    if env.roots != [] {
      WalkTraceIsLog(env, host, qtype, budget, 0, env.roots[0], sent);
    }
  }

  // ----- when a larger budget shows -----

  lemma {:induction false} WalkTracesAgreeIff(
    env: Env, host: string, qtype: QType, budget: nat, more: nat, depth: nat, server: string, sent: seq<Query>)
    requires depth <= MAX_HOPS && budget < more
    ensures WalkTrace(env, host, qtype, more, depth, server, sent)
         == WalkTrace(env, host, qtype, budget, depth, server, sent)
       <==> !Starves(env, host, qtype, budget, depth, server, sent)
    decreases budget, MAX_HOPS - depth, 0
  {
    if depth < MAX_HOPS {
      if IsReferral(env, host, qtype, server) {
        var resp := env.net(server, host, qtype).value;
        var asked := sent + [Query(server, host, qtype)];
        ReferralHop(env, host, qtype, budget, depth, server, sent, resp);
        ReferralHop(env, host, qtype, more, depth, server, sent, resp);
        CallsAgreeIff(env, resp, budget, more, asked);
        if !NextStarves(env, resp, budget, asked) {
          UnstarvedNext(env, resp, budget, more, asked);
          var (next, tried) := NextServer(env, resp, budget, asked);
          if next != "" {
            WalkTracesAgreeIff(env, host, qtype, budget, more, depth + 1, next, tried);
          }
        }
      } else {
        LastHop(env, host, qtype, budget, depth, server, sent);
        LastHop(env, host, qtype, more, depth, server, sent);
      }
    }
  }

  lemma {:induction false} CallsAgreeIff(env: Env, resp: Message, budget: nat, more: nat, sent: seq<Query>)
    requires budget < more
    ensures NextCalls(env, resp, more, sent) == NextCalls(env, resp, budget, sent)
       <==> !NextStarves(env, resp, budget, sent)
    decreases budget, 0, 0
  {
    if GluedServer(env, resp) == "" && budget > 0 {
      FallbacksAgreeIff(env, NSHosts(resp.ns), budget - 1, more - 1, sent);
    }
  }

  lemma {:induction false} FallbacksAgreeIff(
    env: Env, hosts: seq<string>, budget: nat, more: nat, sent: seq<Query>)
    requires budget < more
    ensures FallbackCalls(env, hosts, more, sent) == FallbackCalls(env, hosts, budget, sent)
       <==> !FallbackStarves(env, hosts, budget, sent)
    decreases budget, MAX_HOPS + 2, |hosts|
  {
    if hosts != [] {
      TracesAgreeIff(env, hosts[0], QA, budget, more, sent);
      if !RootStarves(env, hosts[0], QA, budget, sent) {
        UnstarvedRun(env, hosts[0], QA, budget, more, sent);
        var run := ResolveFromRoot(env, hosts[0], QA, budget, sent);
        if Usable(run.out) == [] {
          FallbacksAgreeIff(env, hosts[1..], budget, more, run.sent);
        }
      }
    }
  }

  /**
   * At every budget, starving is the exact condition for any larger budget to show: a resolution
   * makes the same queries in the same nested resolutions under it iff it does not starve.
   */
  lemma {:induction false} TracesAgreeIff(
    env: Env, host: string, qtype: QType, budget: nat, more: nat, sent: seq<Query>)
    requires budget < more
    ensures RunTrace(env, host, qtype, more, sent) == RunTrace(env, host, qtype, budget, sent)
       <==> !RootStarves(env, host, qtype, budget, sent)
    decreases budget, MAX_HOPS + 1, 0
  {
    if env.roots != [] {
      WalkTracesAgreeIff(env, host, qtype, budget, more, 0, env.roots[0], sent);
    }
  }
}
