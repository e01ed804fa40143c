/** What the CNAME lookup's verdict means: prober/ns_hostname.go. */
module CnameVerdict {
  import opened Wrappers
  import opened Text
  import opened Dns
  import opened Resolver
  import opened Walkers

  /** The servers a lookup asks, in order. */
  ghost function Trail(env: Env, host: string, depth: nat, server: string): (t: seq<string>)
    requires depth <= MAX_HOPS
    ensures |t| <= MAX_HOPS - depth && (depth < MAX_HOPS ==> t != [] && t[0] == server)
    decreases MAX_HOPS - depth
  {
    if depth == MAX_HOPS then []
    else if !LeadsOn(env, host, server) then [server]
    else [server] + Trail(env, host, depth + 1, GluedServer(env, env.net(server, host, QCNAME).value))
  }

  /** A reply without CNAME records whose glue leads to a server. */
  ghost predicate LeadsOn(env: Env, host: string, server: string) {
    && env.net(server, host, QCNAME).Success?
    && !HasCNAME(env.net(server, host, QCNAME).value.answer)
    && GluedServer(env, env.net(server, host, QCNAME).value) != ""
  }

  function Questions(trail: seq<string>, host: string): (q: seq<Query>)
    ensures |q| == |trail| && forall i :: 0 <= i < |trail| ==> q[i] == Query(trail[i], host, QCNAME)
  {
    seq(|trail|, i requires 0 <= i < |trail| => Query(trail[i], host, QCNAME))
  }

  /** Each server but the last led on, and to the next one. */
  ghost predicate IsChain(env: Env, host: string, trail: seq<string>) {
    forall i :: 0 <= i < |trail| - 1 ==>
      && LeadsOn(env, host, trail[i])
      && GluedServer(env, env.net(trail[i], host, QCNAME).value) == trail[i + 1]
  }

  /** The verdict as a matter of the last reply alone. */
  ghost predicate IsVerdict(last: Result<Message>, out: Result<bool>) {
    match last
    case Failure => out == Failure
    case Success(resp) => out == Success(true) <==> exists i :: 0 <= i < |resp.answer| && resp.answer[i].CNAME?
  }

  lemma ChainGrows(env: Env, host: string, server: string, rest: seq<string>)
    requires LeadsOn(env, host, server) && IsChain(env, host, rest)
    requires rest != [] ==> rest[0] == GluedServer(env, env.net(server, host, QCNAME).value)
    ensures IsChain(env, host, [server] + rest)
  {
    var trail := [server] + rest;
    forall i | 0 <= i < |trail| - 1
      ensures LeadsOn(env, host, trail[i])
      ensures GluedServer(env, env.net(trail[i], host, QCNAME).value) == trail[i + 1]
    {
      assert i > 0 ==> trail[i] == rest[i - 1] && trail[i + 1] == rest[i];
    }
  }

  lemma {:induction false} TrailIsChain(env: Env, host: string, depth: nat, server: string)
    requires depth <= MAX_HOPS
    ensures IsChain(env, host, Trail(env, host, depth, server))
    decreases MAX_HOPS - depth
  {
    if depth < MAX_HOPS && LeadsOn(env, host, server) {
      var next := GluedServer(env, env.net(server, host, QCNAME).value);
      TrailIsChain(env, host, depth + 1, next);
      ChainGrows(env, host, server, Trail(env, host, depth + 1, next));
    }
  }

  lemma LookupUnfolds(env: Env, host: string, depth: nat, server: string, sent: seq<Query>)
    requires depth < MAX_HOPS
    ensures
      var asked := sent + [Query(server, host, QCNAME)];
      CNAMEWalk(env, host, depth, server, sent) ==
        if LeadsOn(env, host, server)
        then CNAMEWalk(env, host, depth + 1, GluedServer(env, env.net(server, host, QCNAME).value), asked)
        else if env.net(server, host, QCNAME).Failure? then (Failure, asked)
        else (Success(HasCNAME(env.net(server, host, QCNAME).value.answer)), asked)
  {
  }

  /** Where a lookup ends: at its last server's verdict, or, led on by all, at the hop limit. */
  ghost predicate Ends(
    env: Env, host: string, depth: nat, trail: seq<string>, sent: seq<Query>, out: Result<bool>, asked: seq<Query>)
  {
    && trail != [] && asked == sent + Questions(trail, host)
    && IsVerdict(env.net(trail[|trail| - 1], host, QCNAME), out)
    && (LeadsOn(env, host, trail[|trail| - 1]) ==> |trail| == MAX_HOPS - depth && out == Failure)
    && (out == Failure ==>
          LeadsOn(env, host, trail[|trail| - 1]) || env.net(trail[|trail| - 1], host, QCNAME).Failure?)
  }

  lemma EndsLater(
    env: Env, host: string, depth: nat, server: string, rest: seq<string>, sent: seq<Query>,
    out: Result<bool>, asked: seq<Query>)
    requires depth < MAX_HOPS
    requires Ends(env, host, depth + 1, rest, sent + [Query(server, host, QCNAME)], out, asked)
    ensures Ends(env, host, depth, [server] + rest, sent, out, asked)
  {
    var trail := [server] + rest;
    assert trail[|trail| - 1] == rest[|rest| - 1];
    assert Questions(trail, host) == [Query(server, host, QCNAME)] + Questions(rest, host);
  }

  /**
   * What a lookup computes, on every network: it asks along one chain of glue, and its verdict is
   * that of the last reply, true exactly if that reply holds a CNAME record; it fails exactly if the
   * last exchange failed or the chain is longer than the hop limit.
   */
  lemma {:induction false} LookupIsItsTrail(env: Env, host: string, depth: nat, server: string, sent: seq<Query>)
    requires depth < MAX_HOPS
    ensures
      var (out, asked) := CNAMEWalk(env, host, depth, server, sent);
      Ends(env, host, depth, Trail(env, host, depth, server), sent, out, asked)
    decreases MAX_HOPS - depth
  {
    LookupUnfolds(env, host, depth, server, sent);
    if LeadsOn(env, host, server) {
      var next, asked :=
        GluedServer(env, env.net(server, host, QCNAME).value), sent + [Query(server, host, QCNAME)];
      if depth + 1 < MAX_HOPS {
        LookupIsItsTrail(env, host, depth + 1, next, asked);
        var (out, log) := CNAMEWalk(env, host, depth + 1, next, asked);
        EndsLater(env, host, depth, server, Trail(env, host, depth + 1, next), sent, out, log);
      } else {
        assert Trail(env, host, depth, server) == [server];
      }
    }
    assert Questions([server], host) == [Query(server, host, QCNAME)];
  }

  // ----- the comment -----

  /** An authoritative answer that holds a CNAME record of this host. */
  ghost predicate Promised(resp: Message, host: string) {
    resp.authoritative && exists rr <- resp.answer :: rr.CNAME? && EqualFold(rr.name, host)
  }

  ghost function LastServer(env: Env, host: string, depth: nat, server: string): string
    requires depth < MAX_HOPS
  {
    var trail := Trail(env, host, depth, server);
    trail[|trail| - 1]
  }

  ghost function LastReply(env: Env, host: string, depth: nat, server: string): Result<Message>
    requires depth < MAX_HOPS
  {
    env.net(LastServer(env, host, depth, server), host, QCNAME)
  }

  /**
   * The comment on the lookup: true iff the authoritative answer contains the host's CNAME record.
   * A verdict is only about the authoritative answer if it was read from one; an error claims nothing.
   */
  ghost predicate AgreesWithComment(env: Env, host: string, depth: nat, server: string, sent: seq<Query>)
    requires depth < MAX_HOPS
  {
    Agrees(CNAMEWalk(env, host, depth, server, sent).0, LastReply(env, host, depth, server), host)
  }

  ghost predicate Agrees(out: Result<bool>, last: Result<Message>, host: string) {
    match out
    case Failure => true
    case Success(isCNAME) => last.Success? && last.value.authoritative && (isCNAME <==> Promised(last.value, host))
  }

  /**
   * For one lookup: a true verdict agrees exactly if the last reply is as promised, a false one
   * exactly if the last reply is authoritative.
   */
  lemma VerdictAgreesIff(env: Env, host: string, depth: nat, server: string, sent: seq<Query>)
    requires depth < MAX_HOPS
    ensures
      var last, out := LastReply(env, host, depth, server), CNAMEWalk(env, host, depth, server, sent).0;
      && (out.Success? ==> last.Success?)
      && (out == Success(true) ==>
            (AgreesWithComment(env, host, depth, server, sent) <==> Promised(last.value, host)))
      && (out == Success(false) ==>
            (AgreesWithComment(env, host, depth, server, sent) <==> last.value.authoritative))
  {
    var trail, walk := Trail(env, host, depth, server), CNAMEWalk(env, host, depth, server, sent);
    assert Ends(env, host, depth, trail, sent, walk.0, walk.1) by {
      LookupIsItsTrail(env, host, depth, server, sent);
    }
    EndIsVerdict(env, host, depth, trail, sent, walk.0, walk.1);
  }

  /** Every reply that holds a CNAME record is authoritative and holds one of the host asked for. */
  ghost predicate OwnCNAMEsOnly(env: Env) {
    forall host, server :: Holds(env, host, server) ==> Promised(env.net(server, host, QCNAME).value, host)
  }

  ghost predicate Holds(env: Env, host: string, server: string) {
    env.net(server, host, QCNAME).Success? && HasCNAME(env.net(server, host, QCNAME).value.answer)
  }

  /** Every reply without a CNAME record that gives no usable glue is authoritative. */
  ghost predicate DeadEndsAreAuthoritative(env: Env) {
    forall host, server :: IsDeadEnd(env, host, server) ==> env.net(server, host, QCNAME).value.authoritative
  }

  ghost predicate IsDeadEnd(env: Env, host: string, server: string) {
    && env.net(server, host, QCNAME).Success?
    && !HasCNAME(env.net(server, host, QCNAME).value.answer)
    && GluedServer(env, env.net(server, host, QCNAME).value) == ""
  }

  /** What the comment takes for granted of the server a lookup ends at. */
  ghost predicate HonestEnd(env: Env, host: string, server: string) {
    && (Holds(env, host, server) ==> Promised(env.net(server, host, QCNAME).value, host))
    && (IsDeadEnd(env, host, server) ==> env.net(server, host, QCNAME).value.authoritative)
  }

  /** What an end says about its last reply. */
  lemma EndIsVerdict(
    env: Env, host: string, depth: nat, trail: seq<string>, sent: seq<Query>, out: Result<bool>, asked: seq<Query>)
    requires Ends(env, host, depth, trail, sent, out, asked)
    ensures
      var last := trail[|trail| - 1];
      && (out == Success(true) <==> Holds(env, host, last))
      && (out == Success(false) <==> IsDeadEnd(env, host, last))
  {
    if out.Success? {
      assert out == if out.value then Success(true) else Success(false);
    }
  }

  /** A reply that ends the lookup there ends it with a verdict on the answer section it has. */
  lemma LastReplyDecides(env: Env, host: string, depth: nat, server: string, sent: seq<Query>)
    requires depth < MAX_HOPS && (Holds(env, host, server) || IsDeadEnd(env, host, server))
    ensures CNAMEWalk(env, host, depth, server, sent).0 == Success(Holds(env, host, server))
    ensures LastReply(env, host, depth, server) == env.net(server, host, QCNAME)
  {
    assert Trail(env, host, depth, server) == [server];
    LookupUnfolds(env, host, depth, server, sent);
  }

  lemma EndAgreesIff(
    env: Env, host: string, depth: nat, trail: seq<string>, sent: seq<Query>, out: Result<bool>, asked: seq<Query>)
    requires Ends(env, host, depth, trail, sent, out, asked)
    ensures Agrees(out, env.net(trail[|trail| - 1], host, QCNAME), host)
       <==> HonestEnd(env, host, trail[|trail| - 1])
  {
    EndIsVerdict(env, host, depth, trail, sent, out, asked);
  }

  /** For one lookup: the comment is right exactly if the lookup ends at an honest server. */
  lemma LookupAgreesIff(env: Env, host: string, depth: nat, server: string, sent: seq<Query>)
    requires depth < MAX_HOPS
    ensures AgreesWithComment(env, host, depth, server, sent)
       <==> HonestEnd(env, host, LastServer(env, host, depth, server))
  {
    var trail, walk := Trail(env, host, depth, server), CNAMEWalk(env, host, depth, server, sent);
    assert Ends(env, host, depth, trail, sent, walk.0, walk.1) by {
      LookupIsItsTrail(env, host, depth, server, sent);
    }
    EndAgreesIff(env, host, depth, trail, sent, walk.0, walk.1);
  }

  /** For the lookups the program makes, which start at the root: exactly if each ends at an honest server. */
  lemma CommentFromRootIff(env: Env)
    requires env.roots != []
    ensures (forall host, sent :: AgreesWithComment(env, host, 0, env.roots[0], sent))
       <==> forall host :: HonestEnd(env, host, LastServer(env, host, 0, env.roots[0]))
  {
    forall host, sent
      ensures AgreesWithComment(env, host, 0, env.roots[0], sent)
         <==> HonestEnd(env, host, LastServer(env, host, 0, env.roots[0]))
    {
      LookupAgreesIff(env, host, 0, env.roots[0], sent);
    }
    forall host
      ensures AgreesWithComment(env, host, 0, env.roots[0], [])
         <==> HonestEnd(env, host, LastServer(env, host, 0, env.roots[0]))
    {
    }
  }

  /**
   * The comment is right about every lookup on a network exactly if CNAME records come only with
   * authority and of the host asked for, and lookups dead-end only at authoritative replies.
   */
  lemma CommentHoldsIff(env: Env)
    ensures (forall host, depth: nat, server, sent ::
               depth < MAX_HOPS ==> AgreesWithComment(env, host, depth, server, sent))
       <==> OwnCNAMEsOnly(env) && DeadEndsAreAuthoritative(env)
  {
    if OwnCNAMEsOnly(env) && DeadEndsAreAuthoritative(env) {
      forall host, depth: nat, server, sent | depth < MAX_HOPS
        ensures AgreesWithComment(env, host, depth, server, sent)
      {
        LookupAgreesIff(env, host, depth, server, sent);
      }
    } else if !OwnCNAMEsOnly(env) {
      var host, server :| Holds(env, host, server) && !Promised(env.net(server, host, QCNAME).value, host);
      LastReplyDecides(env, host, 0, server, []);
      assert !AgreesWithComment(env, host, 0, server, []);
    } else {
      var host, server :| IsDeadEnd(env, host, server) && !env.net(server, host, QCNAME).value.authoritative;
      LastReplyDecides(env, host, 0, server, []);
      assert !AgreesWithComment(env, host, 0, server, []);
    }
  }

  // ----- two networks on which the comment fails -----

  /** The root volunteers another name's CNAME record without authority. */
  lemma ForeignCNAMEReadsAsTrue(env: Env, host: string, owner: string, target: string, root: string)
    requires host == "h." && owner == "other." && target == "t."
    requires env.roots == [root]
    requires env.net(root, host, QCNAME) == Success(Message(NoError, false, [CNAME(owner, target)], [], []))
    ensures CNAMEWalk(env, host, 0, root, []).0 == Success(true)
    ensures !AgreesWithComment(env, host, 0, root, [])
  {
    var answer := [CNAME(owner, target)];
    assert answer[0].CNAME?;
    LastReplyDecides(env, host, 0, root, []);
  }

  /**
   * The ordinary out-of-bailiwick delegation: the root refers the host, without glue, to a name
   * server whose address can be resolved and that answers with authority with the host's own CNAME
   * record. The lookup never asks it, and returns false.
   */
  lemma GluelessReferralReadsAsFalse(
    env: Env, host: string, ns: string, zone: string, target: string, root: string, addr: string, budget: nat)
    requires host == "h." && ns == "ns.o." && zone == "h." && target == "t." && addr == "a1"
    requires env.roots == [root] && addr == env.resolve(addr)
    requires env.net(root, host, QCNAME) == Success(Message(NoError, false, [], [NS(zone, ns)], []))
    requires env.net(root, ns, QA) == Success(Message(NoError, true, [A(ns, addr)], [], []))
    requires env.net(addr, host, QCNAME) == Success(Message(NoError, true, [CNAME(host, target)], [], []))
    ensures ResolveFromRoot(env, ns, QA, budget, []).out == Success([addr])
    ensures Promised(env.net(env.resolve(addr), host, QCNAME).value, host)
    ensures CNAMEWalk(env, host, 0, root, []).0 == Success(false)
    ensures !AgreesWithComment(env, host, 0, root, [])
  {
    assert CNAME(host, target) in env.net(addr, host, QCNAME).value.answer;
    assert [A(ns, addr)][..0] == [] && Addresses([A(ns, addr)], QA) == [addr];
    assert NSHosts([NS(zone, ns)]) == [ns] + NSHosts([]) == [ns];
    assert IsDeadEnd(env, host, root);
    LastReplyDecides(env, host, 0, root, []);
  }
}
