/** Two networks on which the resolver does not do what its comments say. */
module ResolverExample {
  import opened Wrappers
  import opened Dns
  import opened Resolver
  import Starvation
  import ServerFailure

  function Referral(hosts: seq<string>): Result<Message> {
    Success(Message(NoError, false, [], seq(|hosts|, i requires 0 <= i < |hosts| => NS("z.", hosts[i])), []))
  }

  function Answer(name: string, addr: string): Result<Message> {
    Success(Message(NoError, true, [A(name, addr)], [], []))
  }

  /** "h." is delegated, without glue, to "n1." (itself delegated to "m.") and to "n2."; n1's server is dead. */
  function Net(server: string, name: string, qtype: QType): Result<Message> {
    if server == "r" && name == "h." then Referral(["n1.", "n2."])
    else if server == "r" && name == "n1." then Referral(["m."])
    else if server == "r" && name == "m." then Answer("m.", "am")
    else if server == "am" && name == "n1." then Answer("n1.", "a1")
    else if server == "r" && name == "n2." then Answer("n2.", "a2")
    else if server == "a2" && name == "h." then Answer("h.", "x")
    else Failure
  }

  const ENV: Env := Env(Net, ["r"], a => a)

  lemma ReferralShape(env: Env, hosts: seq<string>)
    ensures var m := Referral(hosts).value;
            && NSHosts(m.ns) == hosts
            && Addresses(m.answer, QA) == []
            && GluedServer(env, m) == ""
  {
    NSHostsOfReferral(hosts);
  }

  lemma {:induction false} NSHostsOfReferral(hosts: seq<string>)
    ensures NSHosts(Referral(hosts).value.ns) == hosts
  {
    if hosts != [] {
      NSHostsOfReferral(hosts[1..]);
      assert Referral(hosts).value.ns[1..] == Referral(hosts[1..]).value.ns;
    }
  }

  lemma AnswerShape(name: string, addr: string)
    ensures Addresses(Answer(name, addr).value.answer, QA) == [addr]
  {
    assert [A(name, addr)][..0] == [];
  }

  /** A host the root answers itself. */
  lemma Direct(env: Env, name: string, addr: string, budget: nat, sent: seq<Query>)
    requires env.roots == ["r"] && env.net("r", name, QA) == Answer(name, addr)
    ensures ResolveFromRoot(env, name, QA, budget, sent).out == Success([addr])
  {
    AnswerShape(name, addr);
  }

  lemma First(env: Env, host: string, hosts: seq<string>, budget: nat, sent: seq<Query>)
    requires hosts != [] && host == hosts[0]
    requires ResolveFromRoot(env, host, QA, budget, sent).out.Success?
    ensures
      var run := ResolveFromRoot(env, host, QA, budget, sent);
      OutOfBand(env, hosts, budget, sent) ==
        if run.out.value != [] then (env.resolve(run.out.value[0]), run.sent)
        else OutOfBand(env, hosts[1..], budget, run.sent)
  {
  }

  /** A run that starves can be the better one: here a budget of one finds an address and two loses it. */
  lemma LargerBudgetCanLoseTheAnswer()
    ensures ResolveFromRoot(ENV, "h.", QA, 1, []).out == Success(["x"])
    ensures ResolveFromRoot(ENV, "h.", QA, 2, []).out == Failure
    ensures Starvation.RootStarves(ENV, "h.", QA, 1, [])
  {
    WithBudget("h.", 1, 1, []);
    WithBudget("h.", 2, 1, []);
    if !Starvation.RootStarves(ENV, "h.", QA, 1, []) {
      Starvation.UnstarvedRun(ENV, "h.", QA, 1, 2, []);
    }
  }

  /** Where the fallback leads: past "n1." to "n2." when there is no budget left for "m.", and else to "n1.". */
  lemma Fallback(hosts: seq<string>, budget: nat, sent: seq<Query>)
    requires hosts == ["n1.", "n2."] && budget in {0, 1}
    ensures OutOfBand(ENV, hosts, budget, sent).0 == if budget == 0 then "a2" else "a1"
  {
    FirstHost(budget, sent);
    First(ENV, "n1.", hosts, budget, sent);
    if budget == 0 {
      var run := ResolveFromRoot(ENV, "n1.", QA, budget, sent);
      assert hosts[1..] == ["n2."];
      Direct(ENV, "n2.", "a2", budget, run.sent);
      First(ENV, "n2.", ["n2."], budget, run.sent);
    }
  }

  lemma WithBudget(host: string, budget: nat, one: nat, sent: seq<Query>)
    requires host == "h." && budget in {1, 2} && one == 1
    ensures ResolveFromRoot(ENV, host, QA, budget, sent).out == if budget == 1 then Success(["x"]) else Failure
  {
    var hosts, asked := ["n1.", "n2."], sent + [Query("r", host, QA)];
    Fallback(hosts, budget - 1, asked);
    Hop(ENV, host, hosts, budget, one, sent);
    Last(host, budget, one, OutOfBand(ENV, hosts, budget - 1, asked).1);
  }

  /** The first hop of a host the root delegates without glue. */
  lemma Hop(env: Env, host: string, hosts: seq<string>, budget: nat, one: nat, sent: seq<Query>)
    requires one == 1 && env.roots == ["r"] && env.net("r", host, QA) == Referral(hosts) && budget > 0
    requires OutOfBand(env, hosts, budget - 1, sent + [Query("r", host, QA)]).0 != ""
    ensures
      var (next, tried) := OutOfBand(env, hosts, budget - 1, sent + [Query("r", host, QA)]);
      ResolveFromRoot(env, host, QA, budget, sent) == Resolve(env, host, QA, budget, one, next, tried)
  {
    ReferralShape(env, hosts);
    var asked := sent + [Query("r", host, QA)];
    assert NextServer(env, Referral(hosts).value, budget, asked) == OutOfBand(env, hosts, budget - 1, asked);
  }

  lemma Last(host: string, budget: nat, depth: nat, sent: seq<Query>)
    requires host == "h." && depth < MAX_HOPS
    ensures Resolve(ENV, host, QA, budget, depth, "a2", sent).out == Success(["x"])
    ensures Resolve(ENV, host, QA, budget, depth, "a1", sent).out == Failure
  {
    AnswerShape(host, "x");
  }

  lemma FirstHost(budget: nat, sent: seq<Query>)
    requires budget in {0, 1}
    ensures ResolveFromRoot(ENV, "n1.", QA, budget, sent).out == Success(if budget == 0 then [] else ["a1"])
  {
    ReferralShape(ENV, ["m."]);
    var asked := sent + [Query("r", "n1.", QA)];
    if budget == 1 {
      Direct(ENV, "m.", "am", 0, asked);
      First(ENV, "m.", ["m."], 0, asked);
      AnswerShape("n1.", "a1");
      assert OutOfBand(ENV, ["m."], 0, asked).0 == "am";
    }
  }

  /**
   * The comment on `resolveOneFamily` promises an error for SERVFAIL. A bare SERVFAIL from the
   * root is reported as "no such records", at every budget.
   */
  lemma ServerFailureReadsAsNoData(env: Env, host: string, qtype: QType, budget: nat, sent: seq<Query>)
    requires env.roots != []
    requires env.net(env.roots[0], host, qtype) == Success(Message(ServFail, false, [], [], []))
    ensures ResolveFromRoot(env, host, qtype, budget, sent).out == Success([])
  {
    ServerFailure.BareFailureReadsAsNoData(env, host, qtype, budget, 0, env.roots[0], sent);
  }
}
