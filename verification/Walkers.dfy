/**
 * The two sibling walks: CNAME lookup (prober/ns_hostname.go) and SPF record resolution
 * (prober/spf_resolve.go), and what all four walks share.
 */
module Walkers {
  import opened Wrappers
  import opened Text
  import opened Dns
  import opened Resolver
  import Delegation
  import SpfRecord

  // ----- CNAME lookup -----

  predicate HasCNAME(answer: seq<RR>) {
    exists rr <- answer :: rr.CNAME?
  }

  ghost function CNAMEWalk(env: Env, host: string, depth: nat, server: string, sent: seq<Query>)
    : (Result<bool>, seq<Query>)
    requires depth <= MAX_HOPS
    decreases MAX_HOPS - depth
  {
    if depth == MAX_HOPS then (Failure, sent)
    else
      var asked := sent + [Query(server, host, QCNAME)];
      match env.net(server, host, QCNAME)
      case Failure => (Failure, asked)
      case Success(resp) =>
        if HasCNAME(resp.answer) then (Success(true), asked)
        else if GluedServer(env, resp) == "" then (Success(false), asked)
        else CNAMEWalk(env, host, depth + 1, GluedServer(env, resp), asked)
  }

  method LookupCNAME(client: Client, hostname: string) returns (r: Result<bool>)
    requires client.env.roots != []
    modifies client
    ensures (r, client.sent) == CNAMEWalk(client.env, Fqdn(hostname), 0, client.env.roots[0], old(client.sent))
  {
    var env, host := client.env, Fqdn(hostname);
    var server := env.roots[0];
    ghost var goal := CNAMEWalk(env, host, 0, server, client.sent);
    for depth := 0 to MAX_HOPS
      invariant CNAMEWalk(env, host, depth, server, client.sent) == goal
    {
      var resp := client.Exchange(server, host, QCNAME);
      if resp.Failure? {
        return Failure;
      }
      for i := 0 to |resp.value.answer|
        invariant forall j :: 0 <= j < i ==> !resp.value.answer[j].CNAME?
      {
        if resp.value.answer[i].CNAME? {
          return Success(true);
        }
      }
      var glue := ReferralGlue(resp.value.extra);
      var nextServer := PickFromSection(env, resp.value, glue);
      if nextServer == "" {
        return Success(false);
      }
      server := nextServer;
    }
    return Failure;
  }

  // ----- TXT resolution -----

  const TXT_HOPS: nat := 16

  /** The concatenated TXT strings of an Answer section, in order. */
  function TextRecords(answer: seq<RR>): seq<string> {
    if answer == [] then []
    else
      var init, rr := TextRecords(answer[..|answer| - 1]), answer[|answer| - 1];
      if rr.TXT? then init + [Join(rr.text)] else init
  }

  function Join(parts: seq<string>): string {
    if parts == [] then "" else parts[0] + Join(parts[1..])
  }

  /** Is this message taken as the answer rather than as a referral? */
  predicate IsFinal(resp: Message) {
    resp.authoritative || resp.rcode == NXDomain || resp.ns == []
  }

  /** What a reply ends the walk with: nothing on a failure code, its TXT strings if it is final. */
  function TXTAnswer(resp: Message): Option<seq<string>> {
    if resp.rcode != NoError && resp.rcode != NXDomain then Some([])
    else if IsFinal(resp) then Some(TextRecords(resp.answer))
    else None
  }

  ghost function NextTXTServer(env: Env, resp: Message, budget: nat, sent: seq<Query>): (string, seq<Query>) {
    var ip := FirstGlued(NSHosts(resp.ns), resp.extra);
    if ip.Some? then (env.resolve(ip.value), sent) else AnyResolved(env, NSHosts(resp.ns), budget, sent)
  }

  ghost function AnyResolved(env: Env, hosts: seq<string>, budget: nat, sent: seq<Query>): (string, seq<Query>)
    decreases |hosts|
  {
    if hosts == [] then ("", sent)
    else
      var run := ResolveHosts(env, hosts[0], budget, sent);
      if run.out.Success? && run.out.value != [] then (env.resolve(run.out.value[0]), run.sent)
      else AnyResolved(env, hosts[1..], budget, run.sent)
  }

  ghost function TXTWalk(env: Env, name: string, budget: nat, hop: nat, server: string, sent: seq<Query>)
    : (seq<string>, seq<Query>)
    requires hop <= TXT_HOPS
    decreases TXT_HOPS - hop
  {
    if hop == TXT_HOPS then ([], sent)
    else
      var asked := sent + [Query(server, name, QTXT)];
      match env.net(server, name, QTXT)
      case Failure => ([], asked)
      case Success(resp) =>
        if TXTAnswer(resp).Some? then (TXTAnswer(resp).value, asked)
        else
          var (next, tried) := NextTXTServer(env, resp, budget, asked);
          if next == "" || next == server then ([], tried)
          else TXTWalk(env, name, budget, hop + 1, next, tried)
  }

  ghost function TXTFromRoot(env: Env, name: string, budget: nat, sent: seq<Query>): (seq<string>, seq<Query>) {
    if env.roots == [] then ([], sent) else TXTWalk(env, Fqdn(name), budget, 0, env.roots[0], sent)
  }

  method NextReferralServer(client: Client, resp: Message, budget: nat) returns (nextServer: string)
    requires client.env.roots != []
    modifies client
    ensures (nextServer, client.sent) == NextTXTServer(client.env, resp, budget, old(client.sent))
  {
    var glue := ReferralGlue(resp.extra);
    var hosts := CollectNSHosts(resp.ns);
    if |hosts| == 0 {
      return "";
    }
    for i := 0 to |hosts|
      invariant FirstGlued(hosts[i..], resp.extra) == FirstGlued(hosts, resp.extra)
    {
      assert hosts[i..][1..] == hosts[i + 1..];
      assert (if hosts[i] in glue then Some(glue[hosts[i]]) else None) == GlueFor(resp.extra, hosts[i]);
      if hosts[i] in glue {
        return client.env.resolve(glue[hosts[i]]);
      }
    }
    nextServer := "";
    for i := 0 to |hosts|
      invariant nextServer == ""
      invariant AnyResolved(client.env, hosts[i..], budget, client.sent)
             == AnyResolved(client.env, hosts, budget, old(client.sent))
    {
      assert hosts[i..][1..] == hosts[i + 1..];
      var ips := ResolveHostnames(client, hosts[i], budget);
      if ips.Success? && |ips.value| > 0 {
        nextServer := client.env.resolve(ips.value[0]);
        return;
      }
    }
  }

  method IterativeResolveTXT(client: Client, name: string, budget: nat) returns (records: seq<string>)
    modifies client
    ensures (records, client.sent) == TXTFromRoot(client.env, name, budget, old(client.sent))
  {
    if |client.env.roots| == 0 {
      return [];
    }
    records := FollowTXT(client, Fqdn(name), budget, 0, client.env.roots[0]);
  }

  /** The loop of the walk. */
  method FollowTXT(client: Client, qname: string, budget: nat, firstHop: nat, root: string)
    returns (records: seq<string>)
    requires client.env.roots != [] && firstHop <= TXT_HOPS
    modifies client
    ensures (records, client.sent) == TXTWalk(client.env, qname, budget, firstHop, root, old(client.sent))
  {
    var env, server := client.env, root;
    ghost var goal := TXTWalk(env, qname, budget, firstHop, root, client.sent);
    for hop := firstHop to TXT_HOPS
      invariant TXTWalk(env, qname, budget, hop, server, client.sent) == goal
    {
      var answer := client.Exchange(server, qname, QTXT);
      if answer.Failure? {
        return [];
      }
      var resp := answer.value;
      var read := ReadTXTReply(resp);
      if read.Some? {
        return read.value;
      }
      var next := NextReferralServer(client, resp, budget);
      if next == "" || next == server {
        return [];
      }
      server := next;
    }
    return [];
  }

  /** The part of that loop that looks at a reply. */
  method ReadTXTReply(resp: Message) returns (r: Option<seq<string>>)
    ensures r == TXTAnswer(resp)
  {
    if resp.rcode != NoError && resp.rcode != NXDomain {
      return Some([]);
    }
    if resp.authoritative || resp.rcode == NXDomain || |resp.ns| == 0 {
      var txts := CollectTXT(resp.answer);
      return Some(txts);
    }
    return None;
  }

  method CollectTXT(answer: seq<RR>) returns (txts: seq<string>)
    ensures txts == TextRecords(answer)
  {
    txts := [];
    for i := 0 to |answer|
      invariant txts == TextRecords(answer[..i])
    {
      assert answer[..i + 1][..i] == answer[..i];
      if answer[i].TXT? {
        txts := txts + [Join(answer[i].text)];
      }
    }
    assert answer[..|answer|] == answer;
  }

  /** The first SPF record among some TXT strings, trimmed. */
  function FirstSPF(txts: seq<string>): Option<string> {
    if txts == [] then None
    else if SpfRecord.IsSPFRecord(txts[0]) then Some(TrimSpace(txts[0]))
    else FirstSPF(txts[1..])
  }

  method ResolveSPFRecord(client: Client, name: string, budget: nat) returns (r: Option<string>)
    modifies client
    ensures r == FirstSPF(TXTFromRoot(client.env, name, budget, old(client.sent)).0)
    ensures client.sent == TXTFromRoot(client.env, name, budget, old(client.sent)).1
  {
    var txts := IterativeResolveTXT(client, name, budget);
    for i := 0 to |txts|
      invariant FirstSPF(txts[i..]) == FirstSPF(txts)
    {
      assert txts[i..][1..] == txts[i + 1..];
      if SpfRecord.IsSPFRecord(txts[i]) {
        return Some(TrimSpace(txts[i]));
      }
    }
    return None;
  }

  // ----- agreement -----

  /**
   * On a referral whose glue leads to a server, all four walks go to that server, at no further
   * query: the address resolver, the delegation walk and the TXT resolver by their choice of a next
   * server, the CNAME lookup by going on there. (The TXT resolver alone then stops if it is the
   * server that just answered.)
   */
  lemma WalkersAgreeOnGlue(
    env: Env, server: string, resp: Message, budget: nat, sent: seq<Query>, host: string, depth: nat)
    requires GluedServer(env, resp) != ""
    ensures
      depth < MAX_HOPS && env.net(server, host, QCNAME) == Success(resp) && !HasCNAME(resp.answer) ==>
        CNAMEWalk(env, host, depth, server, sent)
        == CNAMEWalk(env, host, depth + 1, GluedServer(env, resp), sent + [Query(server, host, QCNAME)])
    ensures NSHosts(resp.ns) != []
    ensures Resolver.NextServer(env, resp, budget, sent) == (GluedServer(env, resp), sent)
    ensures Delegation.NextServer(env, server, resp, sent) == (GluedServer(env, resp), sent)
    ensures NextTXTServer(env, resp, budget, sent) == (GluedServer(env, resp), sent)
    ensures exists i, ip :: 0 <= i < |NSHosts(resp.ns)|
              && GlueFor(resp.extra, NSHosts(resp.ns)[i]) == Some(ip)
              && GluedServer(env, resp) == env.resolve(ip)
              && forall j :: 0 <= j < i ==> GlueFor(resp.extra, NSHosts(resp.ns)[j]).None?
  {
    var i := FirstGluedIndex(NSHosts(resp.ns), resp.extra);
    assert GlueFor(resp.extra, NSHosts(resp.ns)[i]) == Some(GlueFor(resp.extra, NSHosts(resp.ns)[i]).value);
  }

  lemma {:induction false} FirstGluedIndex(hosts: seq<string>, extra: seq<RR>) returns (i: nat)
    requires FirstGlued(hosts, extra).Some?
    ensures i < |hosts| && GlueFor(extra, hosts[i]) == FirstGlued(hosts, extra)
    ensures forall j :: 0 <= j < i ==> GlueFor(extra, hosts[j]).None?
  {
    if GlueFor(extra, hosts[0]).Some? {
      i := 0;
    } else {
      i := FirstGluedIndex(hosts[1..], extra);
      i := i + 1;
      forall j | 0 <= j < i ensures GlueFor(extra, hosts[j]).None? {
        assert j == 0 || hosts[j] == hosts[1..][j - 1];
      }
    }
  }

  // ----- query bounds -----

  /** The most one TXT resolution can send. */
  function TXTBound(n: nat, budget: nat): nat {
    TXT_HOPS * TXTHopBound(n, budget)
  }

  function TXTHopBound(n: nat, budget: nat): nat {
    1 + n * (2 * QueryBound(n, budget))
  }

  /** Resolving a host costs at most `q` queries. */
  ghost predicate BothWithin(env: Env, budget: nat, q: nat) {
    forall host, sent :: |ResolveHosts(env, host, budget, sent).sent| <= |sent| + q
  }

  lemma {:induction false} AnyResolvedIsWithin(env: Env, q: nat, hosts: seq<string>, budget: nat, sent: seq<Query>)
    requires BothWithin(env, budget, q)
    ensures |AnyResolved(env, hosts, budget, sent).1| <= |sent| + |hosts| * q
    decreases |hosts|
  {
    if hosts != [] {
      var run := ResolveHosts(env, hosts[0], budget, sent);
      assert |run.sent| <= |sent| + q;
      AnyResolvedIsWithin(env, q, hosts[1..], budget, run.sent);
      OneLess(|hosts|, q);
      TimesMonotone(0, |hosts[1..]|, q);
    }
  }

  /** One hop of the TXT walk, its own query included. */
  lemma TXTHopIsBounded(env: Env, n: nat, resp: Message, budget: nat, sent: seq<Query>)
    requires Narrow(env.net, n) && |NSHosts(resp.ns)| <= n
    ensures 1 + |NextTXTServer(env, resp, budget, sent).1| <= |sent| + TXTHopBound(n, budget)
  {
    var q := 2 * QueryBound(n, budget);
    forall host, asked ensures |ResolveHosts(env, host, budget, asked).sent| <= |asked| + q {
      QueriesAreBounded(env, n, host, QA, budget, asked);
    }
    AnyResolvedIsWithin(env, q, NSHosts(resp.ns), budget, sent);
    TimesMonotone(|NSHosts(resp.ns)|, n, q);
    TimesMonotone(0, n, q);
  }

  /** A hop, its own exchange included, costs at most `h`. */
  ghost predicate EachHopWithin(env: Env, n: nat, budget: nat, h: nat) {
    forall resp: Message, sent ::
      |NSHosts(resp.ns)| <= n ==> 1 + |NextTXTServer(env, resp, budget, sent).1| <= |sent| + h
  }

  /** One hop: what it costs, and where the walk is after it. */
  lemma TXTHopCost(
    env: Env, n: nat, name: string, budget: nat, hop: nat, server: string, sent: seq<Query>, h: nat)
    returns (more: bool, next: string, tried: seq<Query>)
    requires Narrow(env.net, n) && hop < TXT_HOPS && h >= 1 && EachHopWithin(env, n, budget, h)
    ensures |tried| <= |sent| + h
    ensures
      var log := TXTWalk(env, name, budget, hop, server, sent).1;
      log == if more then TXTWalk(env, name, budget, hop + 1, next, tried).1 else tried
  {
    more, next, tried := false, "", sent + [Query(server, name, QTXT)];
    if env.net(server, name, QTXT).Success? {
      var resp := env.net(server, name, QTXT).value;
      if TXTAnswer(resp).None? {
        assert 1 + |NextTXTServer(env, resp, budget, tried).1| <= |tried| + h;
        var (following, asked) := NextTXTServer(env, resp, budget, tried);
        more, next, tried := following != "" && following != server, following, asked;
      }
    }
  }

  function Times(k: nat, h: nat): nat {
    if k == 0 then 0 else h + Times(k - 1, h)
  }

  lemma {:induction false} TimesIsProduct(k: nat, h: nat)
    ensures Times(k, h) == k * h
  {
    if k > 0 {
      TimesIsProduct(k - 1, h);
      OneLess(k, h);
    }
  }

  lemma {:induction false} TXTWalkIsBounded(
    env: Env, n: nat, name: string, budget: nat, hop: nat, server: string, sent: seq<Query>, h: nat)
    requires Narrow(env.net, n) && hop <= TXT_HOPS && h >= 1 && EachHopWithin(env, n, budget, h)
    ensures |TXTWalk(env, name, budget, hop, server, sent).1| <= |sent| + Times(TXT_HOPS - hop, h)
    decreases TXT_HOPS - hop
  {
    if hop < TXT_HOPS {
      var more, next, tried := TXTHopCost(env, n, name, budget, hop, server, sent, h);
      if more {
        TXTWalkIsBounded(env, n, name, budget, hop + 1, next, tried, h);
      }
    }
  }

  lemma TXTFromRootIsBounded(env: Env, n: nat, name: string, budget: nat, sent: seq<Query>)
    requires Narrow(env.net, n)
    ensures |TXTFromRoot(env, name, budget, sent).1| <= |sent| + TXTBound(n, budget)
  {
    TimesMonotone(0, n, 2 * QueryBound(n, budget));
    forall resp: Message, asked | |NSHosts(resp.ns)| <= n
      ensures 1 + |NextTXTServer(env, resp, budget, asked).1| <= |asked| + TXTHopBound(n, budget)
    {
      TXTHopIsBounded(env, n, resp, budget, asked);
    }
    if env.roots != [] {
      TXTWalkIsBounded(env, n, Fqdn(name), budget, 0, env.roots[0], sent, TXTHopBound(n, budget));
      TimesIsProduct(TXT_HOPS, TXTHopBound(n, budget));
    }
  }
}
