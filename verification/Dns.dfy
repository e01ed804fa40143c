/** Messages, the network as an oracle, and referral handling shared by the walkers. */
module Dns {
  import opened Wrappers

  datatype QType = QA | QAAAA | QNS | QCNAME | QTXT | QMX | QSOA

  datatype RR =
    | A(name: string, addr: string)
    | AAAA(name: string, addr: string)
    | NS(name: string, host: string)
    | CNAME(name: string, host: string)
    | MX(name: string, preference: nat, target: string)
    | TXT(name: string, text: seq<string>)
    | SOA(name: string)
    | OtherRR(name: string)

  datatype Rcode = NoError | NXDomain | ServFail | OtherRcode

  datatype Message = Message(rcode: Rcode, authoritative: bool, answer: seq<RR>, ns: seq<RR>, extra: seq<RR>)

  /** One exchange. Lost packets, timeouts and expired deadlines are failures of the oracle. */
  type Network = (string, string, QType) -> Result<Message>

  /** The network, the root list and the address-to-server mapping a walk runs under. */
  datatype Env = Env(net: Network, roots: seq<string>, resolve: string -> string)

  datatype Query = Query(server: string, name: string, qtype: QType)

  function Fqdn(name: string): string {
    if name != [] && name[|name| - 1] == '.' then name else name + "."
  }

  /** Sends queries; `sent` is the record of them. */
  class Client {
    const env: Env
    ghost var sent: seq<Query>

    constructor (env: Env)
      ensures this.env == env && sent == []
    {
      this.env := env;
      sent := [];
    }

    method Exchange(server: string, name: string, qtype: QType) returns (r: Result<Message>)
      modifies this
      ensures r == env.net(server, name, qtype)
      ensures sent == old(sent) + [Query(server, name, qtype)]
    {
      sent := sent + [Query(server, name, qtype)];
      r := env.net(server, name, qtype);
    }
  }

  // ----- answers -----

  /** The addresses of the queried family in an Answer section, in order. */
  function Addresses(answer: seq<RR>, qtype: QType): (r: seq<string>)
    ensures forall a <- r ::
              || (qtype == QA && exists n :: A(n, a) in answer)
              || (qtype == QAAAA && exists n :: AAAA(n, a) in answer)
  {
    if answer == [] then []
    else
      var init, rr := Addresses(answer[..|answer| - 1], qtype), answer[|answer| - 1];
      assert rr in answer && forall x <- answer[..|answer| - 1] :: x in answer;
      if (rr.A? && qtype == QA) || (rr.AAAA? && qtype == QAAAA) then
        assert rr == A(rr.name, rr.addr) || rr == AAAA(rr.name, rr.addr);
        init + [rr.addr]
      else init
  }

  method CollectAddresses(answer: seq<RR>, qtype: QType) returns (found: seq<string>)
    ensures found == Addresses(answer, qtype)
  {
    found := [];
    for i := 0 to |answer|
      invariant found == Addresses(answer[..i], qtype)
    {
      assert answer[..i + 1][..i] == answer[..i];
      match answer[i] {
        case A(_, addr) =>
          if qtype == QA {
            found := found + [addr];
          }
        case AAAA(_, addr) =>
          if qtype == QAAAA {
            found := found + [addr];
          }
        case _ =>
      }
    }
    assert answer[..|answer|] == answer;
  }

  // ----- referral glue -----

  /** The last A record for a name. */
  function LastA(extra: seq<RR>, name: string): (r: Option<string>)
    ensures r.Some? ==> A(name, r.value) in extra
    ensures r.None? ==> forall a :: A(name, a) !in extra
  {
    if extra == [] then None
    else
      var rr := extra[|extra| - 1];
      assert extra == extra[..|extra| - 1] + [rr];
      if rr.A? && rr.name == name then Some(rr.addr) else LastA(extra[..|extra| - 1], name)
  }

  /** The first AAAA record for a name. */
  function FirstAAAA(extra: seq<RR>, name: string): (r: Option<string>)
    ensures r.Some? ==> AAAA(name, r.value) in extra
    ensures r.None? ==> forall a :: AAAA(name, a) !in extra
  {
    if extra == [] then None
    else
      var rr := extra[|extra| - 1];
      assert extra == extra[..|extra| - 1] + [rr];
      var before := FirstAAAA(extra[..|extra| - 1], name);
      if before.None? && rr.AAAA? && rr.name == name then Some(rr.addr) else before
  }

  /** What a referral's Additional section offers for a name: its last A, or else its first AAAA. */
  function GlueFor(extra: seq<RR>, name: string): Option<string> {
    if LastA(extra, name).Some? then LastA(extra, name) else FirstAAAA(extra, name)
  }

  ghost predicate IsGlueMap(glue: map<string, string>, extra: seq<RR>) {
    forall n :: (if n in glue then Some(glue[n]) else None) == GlueFor(extra, n)
  }

  /** The glue loop the four walkers share. */
  method ReferralGlue(extra: seq<RR>) returns (glue: map<string, string>)
    ensures IsGlueMap(glue, extra)
  {
    glue := map[];
    for i := 0 to |extra|
      invariant IsGlueMap(glue, extra[..i])
    {
      ghost var before := glue;
      assert extra[..i + 1][..i] == extra[..i];
      match extra[i] {
        case A(name, addr) =>
          glue := glue[name := addr];
        case AAAA(name, addr) =>
          if name !in glue {
            glue := glue[name := addr];
          }
        case _ =>
      }
      forall n ensures (if n in glue then Some(glue[n]) else None) == GlueFor(extra[..i + 1], n) {
        assert (if n in before then Some(before[n]) else None) == GlueFor(extra[..i], n);
      }
    }
    assert extra[..|extra|] == extra;
  }

  function OnlyA(extra: seq<RR>): seq<RR> {
    if extra == [] then []
    else OnlyA(extra[..|extra| - 1]) + if extra[|extra| - 1].A? then [extra[|extra| - 1]] else []
  }

  function OnlyAAAA(extra: seq<RR>): seq<RR> {
    if extra == [] then []
    else OnlyAAAA(extra[..|extra| - 1]) + if extra[|extra| - 1].AAAA? then [extra[|extra| - 1]] else []
  }

  lemma {:induction false} LastAOfFiltered(extra: seq<RR>, name: string)
    ensures LastA(extra, name) == LastA(OnlyA(extra), name)
  {
    if extra != [] {
      var init, rr := extra[..|extra| - 1], extra[|extra| - 1];
      LastAOfFiltered(init, name);
      assert (OnlyA(init) + [rr])[..|OnlyA(init)|] == OnlyA(init);
      assert OnlyA(init) + [] == OnlyA(init);
    }
  }

  lemma {:induction false} FirstAAAAOfFiltered(extra: seq<RR>, name: string)
    ensures FirstAAAA(extra, name) == FirstAAAA(OnlyAAAA(extra), name)
  {
    if extra != [] {
      var init, rr := extra[..|extra| - 1], extra[|extra| - 1];
      FirstAAAAOfFiltered(init, name);
      assert (OnlyAAAA(init) + [rr])[..|OnlyAAAA(init)|] == OnlyAAAA(init);
      assert OnlyAAAA(init) + [] == OnlyAAAA(init);
    }
  }

  /** How A and AAAA records are interleaved, and with what else, does not matter. */
  lemma GlueIgnoresInterleaving(extra: seq<RR>, extra': seq<RR>, name: string)
    requires OnlyA(extra) == OnlyA(extra') && OnlyAAAA(extra) == OnlyAAAA(extra')
    ensures GlueFor(extra, name) == GlueFor(extra', name)
  {
    LastAOfFiltered(extra, name);
    LastAOfFiltered(extra', name);
    FirstAAAAOfFiltered(extra, name);
    FirstAAAAOfFiltered(extra', name);
  }

  // ----- choosing the next server -----

  /** The hosts a section's NS records name, in order. */
  function NSHosts(section: seq<RR>): seq<string> {
    if section == [] then []
    else (if section[0].NS? then [section[0].host] else []) + NSHosts(section[1..])
  }

  /** The glue of the first listed host that has any. */
  function FirstGlued(hosts: seq<string>, extra: seq<RR>): (r: Option<string>)
    ensures r.None? <==> forall h <- hosts :: GlueFor(extra, h).None?
    ensures r.Some? ==> exists h <- hosts :: GlueFor(extra, h) == r
  {
    if hosts == [] then None
    else if GlueFor(extra, hosts[0]).Some? then GlueFor(extra, hosts[0])
    else FirstGlued(hosts[1..], extra)
  }

  /** The server a referral's glue leads to; empty when it leads nowhere. */
  function GluedServer(env: Env, resp: Message): string {
    var ip := FirstGlued(NSHosts(resp.ns), resp.extra);
    if ip.Some? then env.resolve(ip.value) else ""
  }

  /** The choice as `resolveOneFamilyWithBudget` and `lookupCNAME` write it: one pass over Authority. */
  method PickFromSection(env: Env, resp: Message, glue: map<string, string>) returns (nextServer: string)
    requires IsGlueMap(glue, resp.extra)
    ensures nextServer == GluedServer(env, resp)
  {
    nextServer := "";
    for i := 0 to |resp.ns|
      invariant nextServer == ""
      invariant FirstGlued(NSHosts(resp.ns), resp.extra) == FirstGlued(NSHosts(resp.ns[i..]), resp.extra)
    {
      assert resp.ns[i..][1..] == resp.ns[i + 1..];
      ghost var rest := NSHosts(resp.ns[i + 1..]);
      if resp.ns[i].NS? {
        var host := resp.ns[i].host;
        assert ([host] + rest)[1..] == rest;
        assert (if host in glue then Some(glue[host]) else None) == GlueFor(resp.extra, host);
        if host in glue {
          nextServer := env.resolve(glue[host]);
          break;
        }
      } else {
        assert [] + rest == rest;
      }
    }
  }

  method CollectNSHosts(section: seq<RR>) returns (hosts: seq<string>)
    ensures hosts == NSHosts(section)
  {
    hosts := [];
    for i := 0 to |section|
      invariant hosts + NSHosts(section[i..]) == NSHosts(section)
    {
      assert section[i..][1..] == section[i + 1..];
      if section[i].NS? {
        hosts := hosts + [section[i].host];
      }
    }
  }

  /** The choice as `WalkDelegation` and `nextReferralServer` write it: over the collected names. */
  method PickFromHosts(env: Env, hosts: seq<string>, extra: seq<RR>, glue: map<string, string>)
    returns (nextServer: string)
    requires IsGlueMap(glue, extra)
    ensures nextServer == match FirstGlued(hosts, extra) case Some(ip) => env.resolve(ip) case None => ""
  {
    nextServer := "";
    for i := 0 to |hosts|
      invariant nextServer == ""
      invariant FirstGlued(hosts, extra) == FirstGlued(hosts[i..], extra)
    {
      assert hosts[i..][1..] == hosts[i + 1..];
      assert (if hosts[i] in glue then Some(glue[hosts[i]]) else None) == GlueFor(extra, hosts[i]);
      if hosts[i] in glue {
        nextServer := env.resolve(glue[hosts[i]]);
        break;
      }
    }
  }
}
