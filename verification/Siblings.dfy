/** The CNAME lookup and the address resolver side by side: prober/ns_hostname.go, prober/prober.go. */
module Siblings {
  import opened Wrappers
  import opened Dns
  import opened Resolver
  import opened Walkers
  import Starvation

  /**
   * The server loses both an address question and a CNAME question, or else, unless it has an
   * answer to one of them, its replies to both lead to the same server by glue.
   */
  ghost predicate SameReferral(env: Env, server: string, host: string, qtype: QType) {
    match (env.net(server, host, qtype), env.net(server, host, QCNAME))
    case (Failure, Failure) => true
    case (Success(a), Success(c)) =>
      Addresses(a.answer, qtype) == [] && !HasCNAME(c.answer) ==> GluedServer(env, a) == GluedServer(env, c)
    case _ => false
  }

  function Servers(sent: seq<Query>): (r: seq<string>)
    ensures |r| == |sent| && forall i :: 0 <= i < |sent| ==> r[i] == sent[i].server
  {
    seq(|sent|, i requires 0 <= i < |sent| => sent[i].server)
  }

  /** How the two walks compare; `a` and `c` are the servers the resolver and the lookup asked. */
  ghost predicate Compare(addrs: Result<seq<string>>, isCNAME: Result<bool>, a: seq<string>, c: seq<string>) {
    && (a <= c || c <= a)
    && (addrs == Failure ==> isCNAME != Success(false))
    && (addrs == Success([]) ==> isCNAME != Failure)
    && (FindsNothing(addrs) ==> c <= a)
    && (isCNAME != Success(true) ==> a <= c)
  }

  predicate FindsNothing(addrs: Result<seq<string>>) {
    addrs.Failure? || addrs.value == []
  }

  ghost predicate CompareRuns(run: Run, lookup: (Result<bool>, seq<Query>)) {
    Compare(run.out, lookup.0, Servers(run.sent), Servers(lookup.1))
  }

  lemma {:induction false} LookupOnlyAsksMore(env: Env, host: string, depth: nat, server: string, sent: seq<Query>)
    requires depth <= MAX_HOPS
    ensures sent <= CNAMEWalk(env, host, depth, server, sent).1
    ensures depth < MAX_HOPS ==>
              sent + [Query(server, host, QCNAME)] <= CNAMEWalk(env, host, depth, server, sent).1
    decreases MAX_HOPS - depth
  {
    if depth < MAX_HOPS && env.net(server, host, QCNAME).Success? {
      var glued := GluedServer(env, env.net(server, host, QCNAME).value);
      LookupOnlyAsksMore(env, host, depth + 1, glued, sent + [Query(server, host, QCNAME)]);
    }
  }

  lemma {:induction false} ResolverOnlyAsksMore(
    env: Env, host: string, qtype: QType, depth: nat, server: string, sent: seq<Query>)
    requires depth <= MAX_HOPS
    ensures sent <= Resolve(env, host, qtype, 0, depth, server, sent).sent
    ensures depth < MAX_HOPS ==>
              sent + [Query(server, host, qtype)] <= Resolve(env, host, qtype, 0, depth, server, sent).sent
    decreases MAX_HOPS - depth
  {
    if depth < MAX_HOPS && env.net(server, host, qtype).Success? {
      var glued := GluedServer(env, env.net(server, host, qtype).value);
      ResolverOnlyAsksMore(env, host, qtype, depth + 1, glued, sent + [Query(server, host, qtype)]);
    }
  }

  lemma PrefixOfServers(a: seq<Query>, b: seq<Query>)
    requires a <= b
    ensures Servers(a) <= Servers(b)
  {
    forall i | 0 <= i < |a| ensures Servers(a)[i] == Servers(b)[i] {
      assert a[i] == b[i];
    }
  }

  /** One hop of either walk at a server that answers. */
  lemma ResolverHop(env: Env, host: string, qtype: QType, depth: nat, server: string, sent: seq<Query>, resp: Message)
    requires depth < MAX_HOPS && env.net(server, host, qtype) == Success(resp)
    ensures
      var asked, found := sent + [Query(server, host, qtype)], Addresses(resp.answer, qtype);
      Resolve(env, host, qtype, 0, depth, server, sent) ==
        if found != [] || GluedServer(env, resp) == "" then Run(Success(found), asked)
        else Resolve(env, host, qtype, 0, depth + 1, GluedServer(env, resp), asked)
  {
    assert NextServer(env, resp, 0, sent + [Query(server, host, qtype)]).0 == GluedServer(env, resp);
  }

  lemma LookupHop(env: Env, host: string, depth: nat, server: string, sent: seq<Query>, resp: Message)
    requires depth < MAX_HOPS && env.net(server, host, QCNAME) == Success(resp)
    ensures
      var asked := sent + [Query(server, host, QCNAME)];
      CNAMEWalk(env, host, depth, server, sent) ==
        if HasCNAME(resp.answer) || GluedServer(env, resp) == "" then (Success(HasCNAME(resp.answer)), asked)
        else CNAMEWalk(env, host, depth + 1, GluedServer(env, resp), asked)
  {
  }

  /** The resolver has its answer here; the lookup may go on. */
  lemma ResolverStopsFirst(
    env: Env, host: string, qtype: QType, depth: nat, server: string, sent: seq<Query>, sent': seq<Query>, a: Message)
    requires depth < MAX_HOPS && Servers(sent) == Servers(sent')
    requires env.net(server, host, qtype) == Success(a) && Addresses(a.answer, qtype) != []
    ensures CompareRuns(Resolve(env, host, qtype, 0, depth, server, sent), CNAMEWalk(env, host, depth, server, sent'))
  {
    var asked, asked' := sent + [Query(server, host, qtype)], sent' + [Query(server, host, QCNAME)];
    ResolverHop(env, host, qtype, depth, server, sent, a);
    LookupOnlyAsksMore(env, host, depth, server, sent');
    PrefixOfServers(asked', CNAMEWalk(env, host, depth, server, sent').1);
    assert Servers(asked) == Servers(sent) + [server] == Servers(asked');
  }

  /** The lookup has its answer here; the resolver may go on. */
  lemma LookupStopsFirst(
    env: Env, host: string, qtype: QType, depth: nat, server: string, sent: seq<Query>, sent': seq<Query>, c: Message)
    requires depth < MAX_HOPS && Servers(sent) == Servers(sent')
    requires env.net(server, host, QCNAME) == Success(c) && HasCNAME(c.answer)
    ensures CompareRuns(Resolve(env, host, qtype, 0, depth, server, sent), CNAMEWalk(env, host, depth, server, sent'))
  {
    var asked, asked' := sent + [Query(server, host, qtype)], sent' + [Query(server, host, QCNAME)];
    LookupHop(env, host, depth, server, sent', c);
    ResolverOnlyAsksMore(env, host, qtype, depth, server, sent);
    PrefixOfServers(asked, Resolve(env, host, qtype, 0, depth, server, sent).sent);
    assert Servers(asked) == Servers(sent) + [server] == Servers(asked');
  }

  /** Both end here, neither with an answer. */
  lemma BothEnd(sent: seq<Query>, sent': seq<Query>, q: Query, q': Query, lost: bool)
    requires Servers(sent) == Servers(sent') && q.server == q'.server
    ensures CompareRuns(Run(if lost then Failure else Success([]), sent + [q]),
                        (if lost then Failure else Success(false), sent' + [q']))
  {
    ServersGrow(sent, sent', q, q');
  }

  /** Failures and answers: every case in which at least one walk ends here. */
  lemma OneEndsHere(
    env: Env, host: string, qtype: QType, depth: nat, server: string, sent: seq<Query>, sent': seq<Query>)
    requires depth < MAX_HOPS && Servers(sent) == Servers(sent')
    requires SameReferral(env, server, host, qtype) && !BothOpen(env, server, host, qtype)
    ensures CompareRuns(Resolve(env, host, qtype, 0, depth, server, sent), CNAMEWalk(env, host, depth, server, sent'))
  {
    if env.net(server, host, qtype).Failure? {
      BothEnd(sent, sent', Query(server, host, qtype), Query(server, host, QCNAME), true);
    } else {
      var a, c := env.net(server, host, qtype).value, env.net(server, host, QCNAME).value;
      if Addresses(a.answer, qtype) != [] {
        ResolverStopsFirst(env, host, qtype, depth, server, sent, sent', a);
      } else {
        LookupStopsFirst(env, host, qtype, depth, server, sent, sent', c);
      }
    }
  }

  /** The server replies to both questions and answers neither. */
  ghost predicate BothOpen(env: Env, server: string, host: string, qtype: QType) {
    && env.net(server, host, qtype).Success? && env.net(server, host, QCNAME).Success?
    && Addresses(env.net(server, host, qtype).value.answer, qtype) == []
    && !HasCNAME(env.net(server, host, QCNAME).value.answer)
  }

  /** Neither has an answer here: both end, or both go on to the same server. */
  lemma BothGoOn(
    env: Env, host: string, qtype: QType, depth: nat, server: string, sent: seq<Query>, sent': seq<Query>,
    glued: string, asked: seq<Query>, asked': seq<Query>)
    requires depth < MAX_HOPS && Servers(sent) == Servers(sent')
    requires SameReferral(env, server, host, qtype) && BothOpen(env, server, host, qtype)
    requires glued == GluedServer(env, env.net(server, host, qtype).value)
    requires asked == sent + [Query(server, host, qtype)] && asked' == sent' + [Query(server, host, QCNAME)]
    requires CompareRuns(Resolve(env, host, qtype, 0, depth + 1, glued, asked),
                         CNAMEWalk(env, host, depth + 1, glued, asked'))
    ensures CompareRuns(Resolve(env, host, qtype, 0, depth, server, sent), CNAMEWalk(env, host, depth, server, sent'))
  {
    var a, c := env.net(server, host, qtype).value, env.net(server, host, QCNAME).value;
    ResolverHop(env, host, qtype, depth, server, sent, a);
    LookupHop(env, host, depth, server, sent', c);
    BothEnd(sent, sent', Query(server, host, qtype), Query(server, host, QCNAME), false);
  }

  lemma BothAtLimit(
    env: Env, host: string, qtype: QType, depth: nat, server: string, sent: seq<Query>, sent': seq<Query>)
    requires depth == MAX_HOPS && Servers(sent) == Servers(sent')
    ensures CompareRuns(Resolve(env, host, qtype, 0, depth, server, sent), CNAMEWalk(env, host, depth, server, sent'))
  {
  }

  lemma ServersGrow(sent: seq<Query>, sent': seq<Query>, q: Query, q': Query)
    requires Servers(sent) == Servers(sent') && q.server == q'.server
    ensures Servers(sent + [q]) == Servers(sent' + [q'])
  {
    assert Servers(sent + [q]) == Servers(sent) + [q.server] == Servers(sent' + [q']);
  }

  /**
   * Where referrals do not depend on the question, the two sibling walks take the same way:
   * one asks a prefix of the servers the other asks, and whichever finds nothing asked at least
   * as far. "No such records" excludes an error of the lookup and "no CNAME" excludes an error of
   * the resolver; so if neither finds anything they ask the same servers and agree on failure.
   */
  lemma {:induction false} SiblingsWalkTogether(
    env: Env, host: string, qtype: QType, depth: nat, server: string, sent: seq<Query>, sent': seq<Query>)
    requires depth <= MAX_HOPS && Servers(sent) == Servers(sent')
    requires forall s :: SameReferral(env, s, host, qtype)
    ensures CompareRuns(Resolve(env, host, qtype, 0, depth, server, sent), CNAMEWalk(env, host, depth, server, sent'))
    decreases MAX_HOPS - depth
  {
    assert SameReferral(env, server, host, qtype);
    if depth == MAX_HOPS {
      BothAtLimit(env, host, qtype, depth, server, sent, sent');
    } else if !BothOpen(env, server, host, qtype) {
      OneEndsHere(env, host, qtype, depth, server, sent, sent');
    } else {
      var asked, asked' := sent + [Query(server, host, qtype)], sent' + [Query(server, host, QCNAME)];
      var glued := GluedServer(env, env.net(server, host, qtype).value);
      assert Servers(asked) == Servers(asked') by {
        ServersGrow(sent, sent', Query(server, host, qtype), Query(server, host, QCNAME));
      }
      SiblingsWalkTogether(env, host, qtype, depth + 1, glued, asked, asked');
      BothGoOn(env, host, qtype, depth, server, sent, sent', glued, asked, asked');
    }
  }

  /**
   * The same for the resolution as the program runs it, with any budget and its fallback, if it does
   * not need the fallback: if no referral on its way names hosts and gives no usable glue.
   */
  lemma ResolutionAndLookupWalkTogether(
    env: Env, host: string, qtype: QType, budget: nat, sent: seq<Query>, sent': seq<Query>)
    requires env.roots != [] && Servers(sent) == Servers(sent')
    requires forall s :: SameReferral(env, s, host, qtype)
    requires !Starvation.RootStarves(env, host, qtype, 0, sent)
    ensures CompareRuns(ResolveFromRoot(env, host, qtype, budget, sent), CNAMEWalk(env, host, 0, env.roots[0], sent'))
  {
    Starvation.UnstarvedRun(env, host, qtype, 0, budget, sent);
    SiblingsWalkTogether(env, host, qtype, 0, env.roots[0], sent, sent');
  }
}
