/** Counting a record's lookups with the resolver the program injects: prober/email_auth.go, prober/spf_resolve.go. */
module Evaluation {
  import opened Dns
  import opened Resolver
  import opened Walkers
  import opened History
  import SpfLookup

  // ----- no TXT resolution depends on what was asked before it -----

  lemma {:induction false} AnyIgnoresPast(
    env: Env, hosts: seq<string>, budget: nat, pre: seq<Query>, sent: seq<Query>)
    ensures
      var (next, tried) := AnyResolved(env, hosts, budget, sent);
      AnyResolved(env, hosts, budget, pre + sent) == (next, pre + tried)
    decreases |hosts|
  {
    if hosts != [] {
      HostsIgnorePast(env, hosts[0], budget, pre, sent);
      AnyIgnoresPast(env, hosts[1..], budget, pre, ResolveHosts(env, hosts[0], budget, sent).sent);
    }
  }

  lemma {:induction false} TXTIgnoresPast(
    env: Env, name: string, budget: nat, hop: nat, server: string, pre: seq<Query>, sent: seq<Query>)
    requires hop <= TXT_HOPS
    ensures
      var (records, log) := TXTWalk(env, name, budget, hop, server, sent);
      TXTWalk(env, name, budget, hop, server, pre + sent) == (records, pre + log)
    decreases TXT_HOPS - hop
  {
    if hop < TXT_HOPS {
      var q := Query(server, name, QTXT);
      assert pre + sent + [q] == pre + (sent + [q]);
      if env.net(server, name, QTXT).Success? {
        var resp := env.net(server, name, QTXT).value;
        AnyIgnoresPast(env, NSHosts(resp.ns), budget, pre, sent + [q]);
        var (next, tried) := NextTXTServer(env, resp, budget, sent + [q]);
        TXTIgnoresPast(env, name, budget, hop + 1, next, pre, tried);
      }
    }
  }

  lemma ResolutionIgnoresPast(env: Env, name: string, budget: nat, sent: seq<Query>)
    ensures
      var (records, log) := TXTFromRoot(env, name, budget, []);
      TXTFromRoot(env, name, budget, sent) == (records, sent + log)
  {
    assert sent + [] == sent;
    if env.roots != [] {
      TXTIgnoresPast(env, Fqdn(name), budget, 0, env.roots[0], sent, []);
    }
  }

  // ----- the injected resolver -----

  /** The closure the probe passes to the counter. */
  ghost function InjectedFetch(env: Env, budget: nat): SpfLookup.Fetch {
    name => FirstSPF(TXTFromRoot(env, name, budget, []).0)
  }

  /** The queries of fetching some targets, one after the other. */
  ghost function FetchAll(env: Env, targets: seq<string>, budget: nat, sent: seq<Query>): seq<Query> {
    if targets == [] then sent
    else FetchAll(env, targets[1..], budget, TXTFromRoot(env, targets[0], budget, sent).1)
  }

  /** Each fetch of the sequence, made after the ones before it, answers as the closure does. */
  ghost predicate Replays(env: Env, targets: seq<string>, budget: nat, sent: seq<Query>)
    decreases |targets|
  {
    targets != [] ==>
      && FirstSPF(TXTFromRoot(env, targets[0], budget, sent).0) == InjectedFetch(env, budget)(targets[0])
      && Replays(env, targets[1..], budget, TXTFromRoot(env, targets[0], budget, sent).1)
  }

  lemma {:induction false} FetchesReplay(env: Env, targets: seq<string>, budget: nat, sent: seq<Query>)
    ensures Replays(env, targets, budget, sent)
    decreases |targets|
  {
    if targets != [] {
      ResolutionIgnoresPast(env, targets[0], budget, sent);
      FetchesReplay(env, targets[1..], budget, TXTFromRoot(env, targets[0], budget, sent).1);
    }
  }

  // ----- the bound -----

  lemma {:induction false} FetchAllIsBounded(env: Env, n: nat, targets: seq<string>, budget: nat, sent: seq<Query>)
    requires Narrow(env.net, n)
    ensures |FetchAll(env, targets, budget, sent)| <= |sent| + |targets| * TXTBound(n, budget)
    decreases |targets|
  {
    if targets != [] {
      var first := TXTFromRoot(env, targets[0], budget, sent).1;
      TXTFromRootIsBounded(env, n, targets[0], budget, sent);
      FetchAllIsBounded(env, n, targets[1..], budget, first);
      OneLess(|targets|, TXTBound(n, budget));
    }
  }

  /** Messages sent at most: a TXT exchange is repeated once when it fails, the others are not. */
  function Packets(sent: seq<Query>): nat {
    if sent == [] then 0 else Packets(sent[..|sent| - 1]) + if sent[|sent| - 1].qtype == QTXT then 2 else 1
  }

  lemma {:induction false} PacketsAreBounded(sent: seq<Query>)
    ensures |sent| <= Packets(sent) <= 2 * |sent|
  {
    if sent != [] {
      PacketsAreBounded(sent[..|sent| - 1]);
    }
  }

  /**
   * No SPF record can make a probe run away. Counting its lookups with the injected resolver makes
   * the fetches of the verdict, in their order, and each resolves as it would on its own; they come
   * to at most ten TXT resolutions' worth of exchanges, and twice as many messages.
   */
  lemma SPFEvaluationIsBounded(env: Env, n: nat, record: string, budget: nat)
    requires Narrow(env.net, n)
    ensures
      var targets := SpfLookup.Verdict(InjectedFetch(env, budget), record).fetched;
      var log := FetchAll(env, targets, budget, []);
      && Replays(env, targets, budget, [])
      && |log| <= 10 * TXTBound(n, budget)
      && Packets(log) <= 20 * TXTBound(n, budget)
  {
    var targets := SpfLookup.Verdict(InjectedFetch(env, budget), record).fetched;
    SpfLookup.FetchesAreBounded(InjectedFetch(env, budget), record);
    FetchesReplay(env, targets, budget, []);
    FetchAllIsBounded(env, n, targets, budget, []);
    TimesMonotone(|targets|, 10, TXTBound(n, budget));
    PacketsAreBounded(FetchAll(env, targets, budget, []));
  }
}
