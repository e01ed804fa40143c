/** What the address resolver makes of a SERVFAIL: prober/prober.go. */
module ServerFailure {
  import opened Wrappers
  import opened Dns
  import opened Resolver
  import History

  // ----- the response code is never read -----

  ghost predicate SameReply(r: Result<Message>, r': Result<Message>) {
    match (r, r')
    case (Failure, Failure) => true
    case (Success(m), Success(m')) => m.(rcode := NoError) == m'.(rcode := NoError)
    case _ => false
  }

  /** Two environments that differ only in the response codes of messages. */
  ghost predicate SameButRcode(env: Env, env': Env) {
    && env.roots == env'.roots
    && (forall addr :: env.resolve(addr) == env'.resolve(addr))
    && (forall server, name, qtype :: SameReply(env.net(server, name, qtype), env'.net(server, name, qtype)))
  }

  lemma {:induction false} WalkIgnoresRcode(
    env: Env, env': Env, host: string, qtype: QType, budget: nat, depth: nat, server: string, sent: seq<Query>)
    requires SameButRcode(env, env') && depth <= MAX_HOPS
    ensures Resolve(env', host, qtype, budget, depth, server, sent)
         == Resolve(env, host, qtype, budget, depth, server, sent)
    decreases budget, MAX_HOPS - depth, 0
  {
    if depth < MAX_HOPS {
      assert SameReply(env.net(server, host, qtype), env'.net(server, host, qtype));
      if env.net(server, host, qtype).Success? {
        var resp, resp' := env.net(server, host, qtype).value, env'.net(server, host, qtype).value;
        var asked := sent + [Query(server, host, qtype)];
        NextIgnoresRcode(env, env', resp, resp', budget, asked);
        var (next, tried) := NextServer(env, resp, budget, asked);
        WalkIgnoresRcode(env, env', host, qtype, budget, depth + 1, next, tried);
      }
    }
  }

  lemma {:induction false} NextIgnoresRcode(
    env: Env, env': Env, resp: Message, resp': Message, budget: nat, sent: seq<Query>)
    requires SameButRcode(env, env') && resp.(rcode := NoError) == resp'.(rcode := NoError)
    ensures NextServer(env', resp', budget, sent) == NextServer(env, resp, budget, sent)
    decreases budget, 0, 0
  {
    assert resp.ns == resp'.ns && resp.extra == resp'.extra;
    if budget > 0 {
      FallbackIgnoresRcode(env, env', NSHosts(resp.ns), budget - 1, sent);
    }
  }

  lemma {:induction false} FallbackIgnoresRcode(env: Env, env': Env, hosts: seq<string>, budget: nat, sent: seq<Query>)
    requires SameButRcode(env, env')
    ensures OutOfBand(env', hosts, budget, sent) == OutOfBand(env, hosts, budget, sent)
    decreases budget, MAX_HOPS + 2, |hosts|
  {
    if hosts != [] {
      RunIgnoresRcode(env, env', hosts[0], QA, budget, sent);
      FallbackIgnoresRcode(env, env', hosts[1..], budget, ResolveFromRoot(env, hosts[0], QA, budget, sent).sent);
    }
  }

  /** No response code anywhere in the network has any effect on a resolution or on what it asks. */
  lemma {:induction false} RunIgnoresRcode(
    env: Env, env': Env, host: string, qtype: QType, budget: nat, sent: seq<Query>)
    requires SameButRcode(env, env')
    ensures ResolveFromRoot(env', host, qtype, budget, sent) == ResolveFromRoot(env, host, qtype, budget, sent)
    decreases budget, MAX_HOPS + 1, 0
  {
    if env.roots != [] {
      WalkIgnoresRcode(env, env', host, qtype, budget, 0, env.roots[0], sent);
    }
  }

  // ----- what a walk comes to -----

  /** The server a reply without addresses leads to, by glue or by the fallback; "" if there is none. */
  ghost function Next(env: Env, resp: Message, budget: nat): string {
    NextServer(env, resp, budget, []).0
  }

  /** The server's reply has no address of the family, and leads to another server. */
  ghost predicate LeadsOn(env: Env, host: string, qtype: QType, budget: nat, server: string) {
    && env.net(server, host, qtype).Success?
    && Addresses(env.net(server, host, qtype).value.answer, qtype) == []
    && Next(env, env.net(server, host, qtype).value, budget) != ""
  }

  /** Where a walk stops: the hop and the server. A walk stops where it is not led on, or at its last hop. */
  ghost function Stop(env: Env, host: string, qtype: QType, budget: nat, depth: nat, server: string): (nat, string)
    requires depth < MAX_HOPS
    decreases MAX_HOPS - depth
  {
    if depth + 1 < MAX_HOPS && LeadsOn(env, host, qtype, budget, server)
    then Stop(env, host, qtype, budget, depth + 1, Next(env, env.net(server, host, qtype).value, budget))
    else (depth, server)
  }

  /** Is `asked` one of the servers the walk asks for its own host? */
  ghost predicate OnTheWay(
    env: Env, host: string, qtype: QType, budget: nat, depth: nat, server: string, asked: string)
    requires depth < MAX_HOPS
    decreases MAX_HOPS - depth
  {
    asked == server ||
    (depth + 1 < MAX_HOPS && LeadsOn(env, host, qtype, budget, server) &&
     OnTheWay(env, host, qtype, budget, depth + 1, Next(env, env.net(server, host, qtype).value, budget), asked))
  }

  lemma {:induction false} AllButLastLeadOn(
    env: Env, host: string, qtype: QType, budget: nat, depth: nat, server: string, asked: string)
    requires depth < MAX_HOPS && OnTheWay(env, host, qtype, budget, depth, server, asked)
    ensures LeadsOn(env, host, qtype, budget, asked) || asked == Stop(env, host, qtype, budget, depth, server).1
    decreases MAX_HOPS - depth
  {
    if depth + 1 < MAX_HOPS && LeadsOn(env, host, qtype, budget, server) && asked != server {
      var next := Next(env, env.net(server, host, qtype).value, budget);
      AllButLastLeadOn(env, host, qtype, budget, depth + 1, next, asked);
    }
  }

  lemma {:induction false} LedOnOnlyAtLimit(
    env: Env, host: string, qtype: QType, budget: nat, depth: nat, server: string)
    requires depth < MAX_HOPS
    ensures
      var (hop, last) := Stop(env, host, qtype, budget, depth, server);
      depth <= hop < MAX_HOPS && (LeadsOn(env, host, qtype, budget, last) ==> hop + 1 == MAX_HOPS)
    decreases MAX_HOPS - depth
  {
    if depth + 1 < MAX_HOPS && LeadsOn(env, host, qtype, budget, server) {
      var next := Next(env, env.net(server, host, qtype).value, budget);
      LedOnOnlyAtLimit(env, host, qtype, budget, depth + 1, next);
    }
  }

  /** One hop that leads on; `tried` is the log after it. */
  lemma HopLeadsOn(env: Env, host: string, qtype: QType, budget: nat, depth: nat, server: string, sent: seq<Query>)
    returns (tried: seq<Query>)
    requires depth < MAX_HOPS && LeadsOn(env, host, qtype, budget, server)
    ensures Resolve(env, host, qtype, budget, depth, server, sent)
         == Resolve(env, host, qtype, budget, depth + 1, Next(env, env.net(server, host, qtype).value, budget), tried)
  {
    var resp := env.net(server, host, qtype).value;
    var asked := sent + [Query(server, host, qtype)];
    History.NextIgnoresPast(env, resp, budget, asked, []);
    assert asked + [] == asked;
    tried := NextServer(env, resp, budget, asked).1;
  }

  /** One hop that does not lead on. */
  lemma HopEnds(env: Env, host: string, qtype: QType, budget: nat, depth: nat, server: string, sent: seq<Query>)
    requires depth < MAX_HOPS && !LeadsOn(env, host, qtype, budget, server)
    ensures Resolve(env, host, qtype, budget, depth, server, sent).out ==
      match env.net(server, host, qtype)
      case Failure => Failure
      case Success(resp) => Success(Addresses(resp.answer, qtype))
  {
    if env.net(server, host, qtype).Success? {
      var asked := sent + [Query(server, host, qtype)];
      History.NextIgnoresPast(env, env.net(server, host, qtype).value, budget, asked, []);
      assert asked + [] == asked;
    }
  }

  /** The outcome as a matter of the last server alone. */
  ghost function OutcomeAt(env: Env, host: string, qtype: QType, budget: nat, last: string): Result<seq<string>> {
    match env.net(last, host, qtype)
    case Failure => Failure
    case Success(resp) =>
      if LeadsOn(env, host, qtype, budget, last) then Failure else Success(Addresses(resp.answer, qtype))
  }

  /**
   * What a walk comes to, on every network: its last server decides. It is an error exactly if that
   * server's exchange failed, or if it leads on and is one server too far; otherwise it is that
   * server's addresses, which may be none.
   */
  lemma {:induction false} WalkIsItsLastHop(
    env: Env, host: string, qtype: QType, budget: nat, depth: nat, server: string, sent: seq<Query>)
    requires depth < MAX_HOPS
    ensures Resolve(env, host, qtype, budget, depth, server, sent).out
         == OutcomeAt(env, host, qtype, budget, Stop(env, host, qtype, budget, depth, server).1)
    decreases MAX_HOPS - depth
  {
    if LeadsOn(env, host, qtype, budget, server) {
      var tried := HopLeadsOn(env, host, qtype, budget, depth, server, sent);
      if depth + 1 < MAX_HOPS {
        var next := Next(env, env.net(server, host, qtype).value, budget);
        WalkIsItsLastHop(env, host, qtype, budget, depth + 1, next, tried);
      }
    } else {
      HopEnds(env, host, qtype, budget, depth, server, sent);
    }
  }

  // ----- when a SERVFAIL is an error -----

  ghost predicate IsServerFailure(env: Env, host: string, qtype: QType, server: string) {
    env.net(server, host, qtype).Success? && env.net(server, host, qtype).value.rcode == ServFail
  }

  /**
   * The exact condition for the promised error, wherever on a walk the SERVFAIL is met: it works as
   * a referral, and the walk later loses an exchange or is led on past its last hop.
   */
  lemma ServerFailureIsErrorIff(
    env: Env, host: string, qtype: QType, budget: nat, depth: nat, server: string, sent: seq<Query>, asked: string)
    requires depth < MAX_HOPS && OnTheWay(env, host, qtype, budget, depth, server, asked)
    requires IsServerFailure(env, host, qtype, asked)
    ensures
      var (hop, last) := Stop(env, host, qtype, budget, depth, server);
      Resolve(env, host, qtype, budget, depth, server, sent).out == Failure <==>
        && LeadsOn(env, host, qtype, budget, asked)
        && (env.net(last, host, qtype).Failure? || (hop + 1 == MAX_HOPS && LeadsOn(env, host, qtype, budget, last)))
  {
    WalkIsItsLastHop(env, host, qtype, budget, depth, server, sent);
    AllButLastLeadOn(env, host, qtype, budget, depth, server, asked);
    LedOnOnlyAtLimit(env, host, qtype, budget, depth, server);
  }

  /** A SERVFAIL as servers send it, without records, is never an error: at any hop and any budget. */
  lemma BareFailureReadsAsNoData(
    env: Env, host: string, qtype: QType, budget: nat, depth: nat, server: string, sent: seq<Query>)
    requires depth < MAX_HOPS
    requires env.net(server, host, qtype) == Success(Message(ServFail, false, [], [], []))
    ensures Resolve(env, host, qtype, budget, depth, server, sent)
         == Run(Success([]), sent + [Query(server, host, qtype)])
  {
    var resp := Message(ServFail, false, [], [], []);
    assert NSHosts(resp.ns) == [] && Addresses(resp.answer, qtype) == [];
    NoHostsLeadNowhere(env, resp, budget, sent + [Query(server, host, qtype)]);
  }

  lemma NoHostsLeadNowhere(env: Env, resp: Message, budget: nat, asked: seq<Query>)
    requires NSHosts(resp.ns) == []
    ensures NextServer(env, resp, budget, asked) == ("", asked)
  {
  }

  // ----- when the promise holds -----

  /** The comment: a walk that ends at a SERVFAIL returns an error. */
  ghost predicate KeepsPromise(
    env: Env, host: string, qtype: QType, budget: nat, depth: nat, server: string, sent: seq<Query>)
    requires depth < MAX_HOPS
  {
    IsServerFailure(env, host, qtype, Stop(env, host, qtype, budget, depth, server).1) ==>
      Resolve(env, host, qtype, budget, depth, server, sent).out == Failure
  }

  ghost predicate FailureLeadsOn(env: Env, host: string, qtype: QType, budget: nat, server: string) {
    IsServerFailure(env, host, qtype, server) ==> LeadsOn(env, host, qtype, budget, server)
  }

  /** For one walk: its last server's reply, if a SERVFAIL, works as a referral (past the last hop). */
  lemma WalkKeepsPromiseIff(
    env: Env, host: string, qtype: QType, budget: nat, depth: nat, server: string, sent: seq<Query>)
    requires depth < MAX_HOPS
    ensures KeepsPromise(env, host, qtype, budget, depth, server, sent)
       <==> FailureLeadsOn(env, host, qtype, budget, Stop(env, host, qtype, budget, depth, server).1)
  {
    WalkIsItsLastHop(env, host, qtype, budget, depth, server, sent);
  }

  ghost predicate KeepsPromiseFromRoot(env: Env, host: string, qtype: QType, budget: nat) {
    env.roots != [] ==> forall sent :: KeepsPromise(env, host, qtype, budget, 0, env.roots[0], sent)
  }

  ghost predicate EndsWell(env: Env, host: string, qtype: QType, budget: nat) {
    env.roots != [] ==>
      FailureLeadsOn(env, host, qtype, budget, Stop(env, host, qtype, budget, 0, env.roots[0]).1)
  }

  /** For resolutions, which start at the root: exactly if none of them ends at a mere SERVFAIL. */
  lemma PromiseFromRootIff(env: Env, qtype: QType, budget: nat)
    ensures (forall host :: KeepsPromiseFromRoot(env, host, qtype, budget))
       <==> forall host :: EndsWell(env, host, qtype, budget)
  {
    forall host ensures KeepsPromiseFromRoot(env, host, qtype, budget) <==> EndsWell(env, host, qtype, budget) {
      if env.roots != [] {
        forall sent
          ensures KeepsPromise(env, host, qtype, budget, 0, env.roots[0], sent) <==> EndsWell(env, host, qtype, budget)
        {
          WalkKeepsPromiseIff(env, host, qtype, budget, 0, env.roots[0], sent);
        }
        assert KeepsPromiseFromRoot(env, host, qtype, budget) ==>
          KeepsPromise(env, host, qtype, budget, 0, env.roots[0], []);
      }
    }
  }

  /**
   * For walks from every server of a network: exactly if each SERVFAIL in it comes without
   * addresses and with NS records that lead on, so that it works as a referral.
   */
  lemma PromiseHoldsIff(env: Env, qtype: QType, budget: nat)
    ensures (forall host, depth: nat, server, sent ::
               depth < MAX_HOPS ==> KeepsPromise(env, host, qtype, budget, depth, server, sent))
       <==> forall host, server :: FailureLeadsOn(env, host, qtype, budget, server)
  {
    if forall host, server :: FailureLeadsOn(env, host, qtype, budget, server) {
      forall host, depth: nat, server, sent | depth < MAX_HOPS
        ensures KeepsPromise(env, host, qtype, budget, depth, server, sent)
      {
        WalkKeepsPromiseIff(env, host, qtype, budget, depth, server, sent);
      }
    } else {
      var host, server :| !FailureLeadsOn(env, host, qtype, budget, server);
      assert Stop(env, host, qtype, budget, 0, server).1 == server;
      WalkKeepsPromiseIff(env, host, qtype, budget, 0, server, []);
    }
  }
}
