/** What a delegation walk comes to, on every network: prober/prober.go, `WalkDelegation`. */
module DelegationVerdict {
  import opened Wrappers
  import opened Text
  import opened Dns
  import opened Delegation
  import Sections

  /** An authoritative answer, or NS records under a section headed by the zone's own name. */
  ghost predicate Delegating(resp: Message, zone: string) {
    (resp.authoritative && resp.answer != []) || (HasNS(resp.ns) && EqualFold(resp.ns[0].name, zone))
  }

  ghost predicate HasNS(section: seq<RR>) {
    exists i :: 0 <= i < |section| && section[i].NS?
  }

  /** The section a delegation is read from: an authoritative answer goes first. */
  ghost function SectionRead(resp: Message): seq<RR> {
    if resp.authoritative && resp.answer != [] then resp.answer else resp.ns
  }

  lemma HasNSIff(section: seq<RR>)
    ensures HasNS(section) <==> NSHosts(section) != []
  {
    var at := Sections.NSHostsAt(section);
    if i :| 0 <= i < |section| && section[i].NS? {
      assert i in at;
    }
    if at != [] {
      assert at[0] in at;
    }
  }

  /** A reply that delegates nothing, but refers to a server. */
  ghost predicate RefersOn(env: Env, zone: string, server: string) {
    && env.net(server, zone, QNS).Success?
    && !Delegating(env.net(server, zone, QNS).value, zone)
    && HasNS(env.net(server, zone, QNS).value.ns)
    && Following(env, zone, server) != ""
  }

  /** The server a reply's referral leads to, by its glue or by asking the server itself. */
  ghost function Following(env: Env, zone: string, server: string): string {
    match env.net(server, zone, QNS)
    case Failure => ""
    case Success(resp) => if NSHosts(resp.ns) == [] then "" else NextServer(env, server, resp, []).0
  }

  /** Where the walk stops: at the first server that does not refer on, or at its last hop. */
  ghost function Stop(env: Env, zone: string, depth: nat, server: string): (nat, string)
    requires depth < 10
    decreases 10 - depth
  {
    if depth + 1 < 10 && RefersOn(env, zone, server) then Stop(env, zone, depth + 1, Following(env, zone, server))
    else (depth, server)
  }

  /** One hop: either the reply refers on, or the walk ends with what the reply says. */
  lemma OneHop(env: Env, zone: string, server: string, sent: seq<Query>)
    ensures
      var (next, asked) := Step(env, zone, server, sent);
      && next == (if RefersOn(env, zone, server) then Following(env, zone, server) else "")
      && (next == "" ==> Outcome(env, zone, server) == Said(env, zone, server))
  {
    if env.net(server, zone, QNS).Success? {
      HasNSIff(env.net(server, zone, QNS).value.ns);
    }
  }

  /** What the last server's reply makes of the walk. */
  ghost function Said(env: Env, zone: string, last: string): Result<DelegationResult> {
    match env.net(last, zone, QNS)
    case Failure => Failure
    case Success(resp) =>
      if Delegating(resp, zone) then Success(Extracted(last, SectionRead(resp), resp.extra)) else Failure
  }

  /**
   * The last server's reply decides. The walk succeeds exactly if that exchange succeeds and its
   * reply is authoritative with an answer, or names NS hosts under the zone's own name; when both
   * hold the delegation is read from the answer.
   */
  lemma {:induction false} WalkIsItsLastReply(env: Env, zone: string, depth: nat, server: string, sent: seq<Query>)
    requires depth < 10
    ensures Walk(env, zone, depth, server, sent).0 == Said(env, zone, Stop(env, zone, depth, server).1)
    decreases 10 - depth
  {
    WalkByStep(env, zone, depth, server, sent);
    OneHop(env, zone, server, sent);
    var (next, asked) := Step(env, zone, server, sent);
    if next != "" && depth + 1 < 10 {
      WalkIsItsLastReply(env, zone, depth + 1, next, asked);
    }
  }

  /** Where the walk stops, its reply does not refer on, unless the hops are used up. */
  lemma {:induction false} StopsForAReason(env: Env, zone: string, depth: nat, server: string)
    requires depth < 10
    ensures
      var (hop, last) := Stop(env, zone, depth, server);
      depth <= hop < 10 && (RefersOn(env, zone, last) ==> hop == 9)
    decreases 10 - depth
  {
    if depth + 1 < 10 && RefersOn(env, zone, server) {
      StopsForAReason(env, zone, depth + 1, Following(env, zone, server));
    }
  }

  /**
   * Every failure, and nothing else, is one of these at the last server: a lost exchange, a reply
   * that delegates nothing and either names no NS host or leads to no server, or the tenth referral.
   */
  lemma WalkFailsIff(env: Env, zone: string, depth: nat, server: string, sent: seq<Query>)
    requires depth < 10
    ensures
      var (hop, last) := Stop(env, zone, depth, server);
      Walk(env, zone, depth, server, sent).0.Failure? <==>
        || env.net(last, zone, QNS).Failure?
        || (!Delegating(env.net(last, zone, QNS).value, zone)
            && (!HasNS(env.net(last, zone, QNS).value.ns) || Following(env, zone, last) == "" || hop == 9))
  {
    WalkIsItsLastReply(env, zone, depth, server, sent);
    StopsForAReason(env, zone, depth, server);
  }
}
