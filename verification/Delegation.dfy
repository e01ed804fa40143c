/** The delegation walk and what it extracts: prober/prober.go. */
module Delegation {
  import opened Wrappers
  import opened Text
  import opened Dns
  import opened Sequences
  import Resolver

  datatype Nameserver = Nameserver(hostname: string, ip: string)

  datatype DelegationResult = DelegationResult(parentServer: string, nsRecords: seq<Nameserver>, glue: seq<Nameserver>)

  // ----- extraction -----

  function AddressOf(rr: RR): Option<(string, string)> {
    match rr
    case A(name, addr) => Some((name, addr))
    case AAAA(name, addr) => Some((name, addr))
    case _ => None
  }

  /** A host's glue: its A and AAAA addresses, each once, in the order first seen. */
  function GlueList(extra: seq<RR>, host: string): seq<string> {
    if extra == [] then []
    else
      var before := GlueList(extra[..|extra| - 1], host);
      match AddressOf(extra[|extra| - 1])
      case None => before
      case Some((name, addr)) => if name == host && addr !in before then before + [addr] else before
  }

  /** No address twice, none missing, none made up; a longer section only appends. */
  lemma {:induction false} GlueListIsExact(extra: seq<RR>, host: string, k: nat)
    requires k <= |extra|
    ensures NoRepeats(GlueList(extra, host))
    ensures forall a :: a in GlueList(extra, host) <==> A(host, a) in extra || AAAA(host, a) in extra
    ensures GlueList(extra[..k], host) <= GlueList(extra, host)
    decreases |extra|
  {
    if k == |extra| {
      assert extra[..k] == extra;
    }
    if extra != [] {
      var init, rr := extra[..|extra| - 1], extra[|extra| - 1];
      assert extra == init + [rr];
      GlueListIsExact(init, host, if k < |extra| then k else |init|);
      assert k < |extra| ==> extra[..k] == init[..k];
    }
  }

  function Entries(host: string, ips: seq<string>): (r: seq<Nameserver>)
    ensures |r| == |ips| && forall i :: 0 <= i < |ips| ==> r[i] == Nameserver(host, ips[i])
  {
    seq(|ips|, i requires 0 <= i < |ips| => Nameserver(host, ips[i]))
  }

  /** One Nameserver per glue address, or the empty-address sentinel for a host with none. */
  function RecordsOf(rr: RR, extra: seq<RR>): seq<Nameserver> {
    if !rr.NS? then []
    else if GlueList(extra, rr.host) == [] then [Nameserver(rr.host, "")]
    else Entries(rr.host, GlueList(extra, rr.host))
  }

  function GlueOf(rr: RR, extra: seq<RR>): seq<Nameserver> {
    if rr.NS? then Entries(rr.host, GlueList(extra, rr.host)) else []
  }

  function AllRecords(section: seq<RR>, extra: seq<RR>): seq<Nameserver> {
    if section == [] then []
    else AllRecords(section[..|section| - 1], extra) + RecordsOf(section[|section| - 1], extra)
  }

  function AllGlue(section: seq<RR>, extra: seq<RR>): seq<Nameserver> {
    if section == [] then []
    else AllGlue(section[..|section| - 1], extra) + GlueOf(section[|section| - 1], extra)
  }

  function Extracted(parentServer: string, section: seq<RR>, extra: seq<RR>): DelegationResult {
    DelegationResult(parentServer, AllRecords(section, extra), AllGlue(section, extra))
  }

  /** The records that carry an address. */
  function Glued(records: seq<Nameserver>): seq<Nameserver> {
    if records == [] then []
    else
      var init, last := Glued(records[..|records| - 1]), records[|records| - 1];
      if last.ip != "" then init + [last] else init
  }

  lemma {:induction false} GluedOfConcat(a: seq<Nameserver>, b: seq<Nameserver>)
    ensures Glued(a + b) == Glued(a) + Glued(b)
  {
    if b == [] {
      assert a + b == a;
    } else {
      assert (a + b)[..|a + b| - 1] == a + b[..|b| - 1];
      GluedOfConcat(a, b[..|b| - 1]);
    }
  }

  lemma {:induction false} GluedOfAll(records: seq<Nameserver>)
    requires forall i :: 0 <= i < |records| ==> records[i].ip != ""
    ensures Glued(records) == records
  {
    if records != [] {
      GluedOfAll(records[..|records| - 1]);
    }
  }

  /** Address records carry a textual address, which is never empty. */
  ghost predicate TextualAddresses(extra: seq<RR>) {
    forall rr <- extra :: AddressOf(rr).Some? ==> AddressOf(rr).value.1 != ""
  }

  ghost predicate IsGlueLists(glue: map<string, seq<string>>, extra: seq<RR>) {
    forall n :: (if n in glue then glue[n] else []) == GlueList(extra, n)
  }

  method CollectGlueLists(extra: seq<RR>) returns (glue: map<string, seq<string>>)
    ensures IsGlueLists(glue, extra)
  {
    glue := map[];
    for i := 0 to |extra|
      invariant IsGlueLists(glue, extra[..i])
    {
      ghost var before := glue;
      assert extra[..i + 1][..i] == extra[..i];
      var na := AddressOf(extra[i]);
      if na.Some? {
        var (name, ip) := na.value;
        var known := if name in glue then glue[name] else [];
        if ip !in known {
          glue := glue[name := known + [ip]];
        }
      }
      forall n ensures (if n in glue then glue[n] else []) == GlueList(extra[..i + 1], n) {
        assert (if n in before then before[n] else []) == GlueList(extra[..i], n);
      }
    }
    assert extra[..|extra|] == extra;
  }

  method ExtractDelegation(parentServer: string, section: seq<RR>, extra: seq<RR>) returns (r: DelegationResult)
    ensures r == Extracted(parentServer, section, extra)
  {
    var glueMap := CollectGlueLists(extra);
    var records: seq<Nameserver>, glue: seq<Nameserver> := [], [];
    for i := 0 to |section|
      invariant records == AllRecords(section[..i], extra)
      invariant glue == AllGlue(section[..i], extra)
    {
      assert section[..i + 1][..i] == section[..i];
      if !section[i].NS? {
        continue;
      }
      var host := section[i].host;
      assert (if host in glueMap then glueMap[host] else []) == GlueList(extra, host);
      var ips := if host in glueMap then glueMap[host] else [];
      if |ips| == 0 {
        assert glue + Entries(host, ips) == glue;
        records := records + [Nameserver(host, "")];
        continue;
      }
      records, glue := AppendEntries(records, glue, host, ips);
    }
    assert section[..|section|] == section;
    r := DelegationResult(parentServer, records, glue);
  }

  /** The inner loop: one entry per address, on both lists. */
  method AppendEntries(records0: seq<Nameserver>, glue0: seq<Nameserver>, host: string, ips: seq<string>)
    returns (records: seq<Nameserver>, glue: seq<Nameserver>)
    ensures records == records0 + Entries(host, ips)
    ensures glue == glue0 + Entries(host, ips)
  {
    records, glue := records0, glue0;
    ghost var all := Entries(host, ips);
    for j := 0 to |ips|
      invariant records == records0 + all[..j] && glue == glue0 + all[..j]
    {
      var entry := Nameserver(host, ips[j]);
      assert all[..j + 1] == all[..j] + [entry];
      records := records + [entry];
      glue := glue + [entry];
    }
    assert all[..|ips|] == all;
  }

  lemma {:induction false} AllGlueIsGlued(section: seq<RR>, extra: seq<RR>)
    requires TextualAddresses(extra)
    ensures AllGlue(section, extra) == Glued(AllRecords(section, extra))
  {
    if section != [] {
      var init, rr := section[..|section| - 1], section[|section| - 1];
      AllGlueIsGlued(init, extra);
      GluedOfConcat(AllRecords(init, extra), RecordsOf(rr, extra));
      GlueOfIsGlued(rr, extra);
    }
  }

  lemma GlueOfIsGlued(rr: RR, extra: seq<RR>)
    requires TextualAddresses(extra)
    ensures GlueOf(rr, extra) == Glued(RecordsOf(rr, extra))
  {
    if rr.NS? {
      var ips := GlueList(extra, rr.host);
      GlueListIsExact(extra, rr.host, 0);
      forall i | 0 <= i < |ips| ensures ips[i] != "" {
        assert ips[i] in ips;
        assert AddressOf(A(rr.host, ips[i])).value.1 == AddressOf(AAAA(rr.host, ips[i])).value.1 == ips[i];
      }
      if ips != [] {
        GluedOfAll(Entries(rr.host, ips));
      } else {
        assert [Nameserver(rr.host, "")][..0] == [];
      }
    }
  }

  /**
   * `Glue` is `NSRecords` without its sentinels; the hosts of `NSRecords` are those of the NS
   * section; a listed host has exactly its distinct glue addresses, or else one sentinel.
   */
  lemma ExtractionIsExact(parentServer: string, section: seq<RR>, extra: seq<RR>)
    requires TextualAddresses(extra)
    ensures
      var d := Extracted(parentServer, section, extra);
      && d.glue == Glued(d.nsRecords)
      && forall h, ip :: Nameserver(h, ip) in d.nsRecords <==>
           && (exists rr <- section :: rr.NS? && rr.host == h)
           && (ip in GlueList(extra, h) || (ip == "" && GlueList(extra, h) == []))
  {
    AllGlueIsGlued(section, extra);
    forall h, ip ensures Nameserver(h, ip) in AllRecords(section, extra) <==>
           && (exists rr <- section :: rr.NS? && rr.host == h)
           && (ip in GlueList(extra, h) || (ip == "" && GlueList(extra, h) == []))
    {
      RecordsMember(section, extra, h, ip);
    }
  }

  lemma ExtractionSnoc(section: seq<RR>, rr: RR, extra: seq<RR>)
    ensures AllRecords(section + [rr], extra) == AllRecords(section, extra) + RecordsOf(rr, extra)
    ensures AllGlue(section + [rr], extra) == AllGlue(section, extra) + GlueOf(rr, extra)
  {
    assert (section + [rr])[..|section|] == section;
  }

  ghost predicate InOrder(a: seq<RR>, b: seq<RR>, extra: seq<RR>) {
    && AllRecords(a + b, extra) == AllRecords(a, extra) + AllRecords(b, extra)
    && AllGlue(a + b, extra) == AllGlue(a, extra) + AllGlue(b, extra)
  }

  lemma OneMoreInOrder(a: seq<RR>, init: seq<RR>, last: RR, extra: seq<RR>)
    requires InOrder(a, init, extra)
    ensures InOrder(a, init + [last], extra)
  {
    ExtractionSnoc(init, last, extra);
    ExtractionSnoc(a + init, last, extra);
    ConcatIsAssociative(a, init, [last]);
    ConcatIsAssociative(AllRecords(a, extra), AllRecords(init, extra), RecordsOf(last, extra));
    ConcatIsAssociative(AllGlue(a, extra), AllGlue(init, extra), GlueOf(last, extra));
  }

  /** Both lists keep the order of the section: what comes first in it comes first in them. */
  lemma {:induction false} ExtractionKeepsOrder(a: seq<RR>, b: seq<RR>, extra: seq<RR>)
    ensures InOrder(a, b, extra)
    decreases |b|
  {
    if b == [] {
      assert a + b == a;
    } else {
      var init, last := b[..|b| - 1], b[|b| - 1];
      ExtractionKeepsOrder(a, init, extra);
      OneMoreInOrder(a, init, last, extra);
      assert b == init + [last];
    }
  }

  lemma {:induction false} RecordsMember(section: seq<RR>, extra: seq<RR>, h: string, ip: string)
    ensures Nameserver(h, ip) in AllRecords(section, extra) <==>
              && (exists rr <- section :: rr.NS? && rr.host == h)
              && (ip in GlueList(extra, h) || (ip == "" && GlueList(extra, h) == []))
  {
    if section != [] {
      var init, rr := section[..|section| - 1], section[|section| - 1];
      assert section == init + [rr];
      RecordsMember(init, extra, h, ip);
      if rr.NS? {
        var ips := GlueList(extra, rr.host);
        if h == rr.host && ip in ips {
          var i :| 0 <= i < |ips| && ips[i] == ip;
          assert Entries(rr.host, ips)[i] == Nameserver(h, ip);
        }
      }
    }
  }

  // ----- the walk -----

  ghost function Walk(env: Env, zone: string, depth: nat, server: string, sent: seq<Query>)
    : (Result<DelegationResult>, seq<Query>)
    requires depth <= Resolver.MAX_HOPS
    decreases Resolver.MAX_HOPS - depth
  {
    if depth == Resolver.MAX_HOPS then (Failure, sent)
    else
      var asked := sent + [Query(server, zone, QNS)];
      match env.net(server, zone, QNS)
      case Failure => (Failure, asked)
      case Success(resp) =>
        if Judged(server, zone, resp).Some? then (Judged(server, zone, resp).value, asked)
        else
          var (next, tried) := NextServer(env, server, resp, asked);
          if next == "" then (Failure, tried) else Walk(env, zone, depth + 1, next, tried)
  }

  /** What a reply ends the walk with: a delegation or an error. None is a referral to follow. */
  function Judged(server: string, zone: string, resp: Message): (r: Option<Result<DelegationResult>>)
    ensures r.None? ==> NSHosts(resp.ns) != []
  {
    if resp.authoritative && resp.answer != [] then Some(Success(Extracted(server, resp.answer, resp.extra)))
    else if NSHosts(resp.ns) == [] then Some(Failure)
    else if EqualFold(resp.ns[0].name, zone) then Some(Success(Extracted(server, resp.ns, resp.extra)))
    else None
  }

  /** The glued server, or else an address the same server gives for the first host: A, then AAAA. */
  ghost function NextServer(env: Env, server: string, resp: Message, sent: seq<Query>): (string, seq<Query>)
    requires NSHosts(resp.ns) != []
  {
    var host := NSHosts(resp.ns)[0];
    var viaA := Fallback(env, server, host, QA);
    var askedA := sent + [Query(server, host, QA)];
    if GluedServer(env, resp) != "" then (GluedServer(env, resp), sent)
    else if viaA != "" then (viaA, askedA)
    else (Fallback(env, server, host, QAAAA), askedA + [Query(server, host, QAAAA)])
  }

  ghost function Fallback(env: Env, server: string, host: string, qtype: QType): string {
    match env.net(server, host, qtype)
    case Failure => ""
    case Success(resp) => FirstResolved(env, Addresses(resp.answer, qtype))
  }

  function FirstResolved(env: Env, addrs: seq<string>): string {
    if addrs == [] then ""
    else if env.resolve(addrs[0]) != "" then env.resolve(addrs[0])
    else FirstResolved(env, addrs[1..])
  }

  method QueryFallback(client: Client, server: string, host: string, qtype: QType) returns (nextServer: string)
    modifies client
    ensures nextServer == Fallback(client.env, server, host, qtype)
    ensures client.sent == old(client.sent) + [Query(server, host, qtype)]
  {
    nextServer := "";
    var resp := client.Exchange(server, host, qtype);
    if resp.Failure? {
      return;
    }
    var addrs := CollectAddresses(resp.value.answer, qtype);
    for i := 0 to |addrs|
      invariant nextServer == ""
      invariant FirstResolved(client.env, addrs[i..]) == FirstResolved(client.env, addrs)
    {
      assert addrs[i..][1..] == addrs[i + 1..];
      nextServer := client.env.resolve(addrs[i]);
      if nextServer != "" {
        return;
      }
    }
  }

  /** The next hop: glue, or else an address query to the referring server, per family. */
  method ChooseServer(client: Client, server: string, resp: Message) returns (nextServer: string)
    requires NSHosts(resp.ns) != []
    modifies client
    ensures (nextServer, client.sent) == NextServer(client.env, server, resp, old(client.sent))
  {
    var hosts := CollectNSHosts(resp.ns);
    var glue := ReferralGlue(resp.extra);
    nextServer := PickFromHosts(client.env, hosts, resp.extra, glue);
    if nextServer == "" {
      nextServer := QueryFallback(client, server, hosts[0], QA);
      if nextServer == "" {
        nextServer := QueryFallback(client, server, hosts[0], QAAAA);
      }
    }
  }

  /** The part of the loop that looks at a reply. */
  method JudgeReply(server: string, zone: string, resp: Message) returns (r: Option<Result<DelegationResult>>)
    ensures r == Judged(server, zone, resp)
  {
    if resp.authoritative && |resp.answer| > 0 {
      var d := ExtractDelegation(server, resp.answer, resp.extra);
      return Some(Success(d));
    }
    if |resp.ns| > 0 {
      var hosts := CollectNSHosts(resp.ns);
      if |hosts| == 0 {
        return Some(Failure);
      }
      if EqualFold(resp.ns[0].name, zone) {
        var d := ExtractDelegation(server, resp.ns, resp.extra);
        return Some(Success(d));
      }
      return None;
    }
    return Some(Failure);
  }

  method WalkDelegation(client: Client, zoneName: string) returns (r: Result<DelegationResult>)
    requires client.env.roots != []
    modifies client
    ensures (r, client.sent) == Walk(client.env, Fqdn(zoneName), 0, client.env.roots[0], old(client.sent))
  {
    r := FollowDelegation(client, Fqdn(zoneName), 0, client.env.roots[0]);
  }

  /** Where a reply leads the walk, if anywhere, and what was asked by then. */
  ghost function Step(env: Env, zone: string, server: string, sent: seq<Query>): (string, seq<Query>) {
    var asked := sent + [Query(server, zone, QNS)];
    match env.net(server, zone, QNS)
    case Failure => ("", asked)
    case Success(resp) =>
      if Judged(server, zone, resp).Some? then ("", asked) else NextServer(env, server, resp, asked)
  }

  /** What the walk returns if it ends at this server. */
  ghost function Outcome(env: Env, zone: string, server: string): Result<DelegationResult> {
    match env.net(server, zone, QNS)
    case Failure => Failure
    case Success(resp) =>
      var judged := Judged(server, zone, resp);
      if judged.Some? then judged.value else Failure
  }

  lemma WalkByStep(env: Env, zone: string, depth: nat, server: string, sent: seq<Query>)
    requires depth < Resolver.MAX_HOPS
    ensures
      var (next, asked) := Step(env, zone, server, sent);
      && |asked| <= |sent| + 3
      && Walk(env, zone, depth, server, sent) ==
         if next == "" then (Outcome(env, zone, server), asked) else Walk(env, zone, depth + 1, next, asked)
  {
  }

  /** One exchange: the server it leads to, or else what the walk returns. */
  method AskServer(client: Client, zone: string, server: string) returns (next: string, r: Result<DelegationResult>)
    modifies client
    ensures (next, client.sent) == Step(client.env, zone, server, old(client.sent))
    ensures next == "" ==> r == Outcome(client.env, zone, server)
  {
    next, r := "", Failure;
    var answer := client.Exchange(server, zone, QNS);
    if answer.Success? {
      var judged := JudgeReply(server, zone, answer.value);
      if judged.Some? {
        r := judged.value;
      } else {
        next := ChooseServer(client, server, answer.value);
      }
    }
  }

  /** The loop, from any hop and server on. */
  method FollowDelegation(client: Client, zone: string, firstHop: nat, first: string)
    returns (r: Result<DelegationResult>)
    requires firstHop <= Resolver.MAX_HOPS
    modifies client
    ensures (r, client.sent) == Walk(client.env, zone, firstHop, first, old(client.sent))
  {
    var server := first;
    for depth := firstHop to Resolver.MAX_HOPS
      invariant
        Walk(client.env, zone, depth, server, client.sent) == Walk(client.env, zone, firstHop, first, old(client.sent))
    {
      WalkByStep(client.env, zone, depth, server, client.sent);
      var next, out := AskServer(client, zone, server);
      if next == "" {
        return out;
      }
      server := next;
    }
    return Failure;
  }

  /** Thirty queries at most, on any network. */
  lemma {:induction false} WalkIsBounded(env: Env, zone: string, depth: nat, server: string, sent: seq<Query>)
    requires depth <= Resolver.MAX_HOPS
    ensures |Walk(env, zone, depth, server, sent).1| <= |sent| + 3 * (Resolver.MAX_HOPS - depth)
    decreases Resolver.MAX_HOPS - depth
  {
    if depth < Resolver.MAX_HOPS {
      WalkByStep(env, zone, depth, server, sent);
      var (next, asked) := Step(env, zone, server, sent);
      WalkIsBounded(env, zone, depth + 1, next, asked);
    }
  }

  /** The two kinds of message a delegation is read from. */
  ghost predicate Delegates(resp: Message, zone: string, d: DelegationResult) {
    || (resp.authoritative && resp.answer != [] && d == Extracted(d.parentServer, resp.answer, resp.extra))
    || (NSHosts(resp.ns) != [] && EqualFold(resp.ns[0].name, zone)
        && d == Extracted(d.parentServer, resp.ns, resp.extra))
  }

  /** The result is read from the last reply of the log, by the server it names as parent. */
  ghost predicate ReadFromLastReply(env: Env, zone: string, out: Result<DelegationResult>, asked: seq<Query>) {
    out.Success? ==>
      var parent := out.value.parentServer;
      && asked != [] && asked[|asked| - 1] == Query(parent, zone, QNS)
      && env.net(parent, zone, QNS).Success?
      && Delegates(env.net(parent, zone, QNS).value, zone, out.value)
  }

  lemma OutcomeIsRead(env: Env, zone: string, server: string, sent: seq<Query>)
    requires Outcome(env, zone, server).Success?
    ensures Step(env, zone, server, sent) == ("", sent + [Query(server, zone, QNS)])
    ensures ReadFromLastReply(env, zone, Outcome(env, zone, server), sent + [Query(server, zone, QNS)])
  {
  }

  /**
   * A result is read from one message: the reply of `parentServer`, the last server asked, to the
   * zone's NS question. On the referral branch the section is headed by the zone's own name.
   */
  lemma {:induction false} DelegationHasProvenance(env: Env, zone: string, depth: nat, server: string, sent: seq<Query>)
    requires depth <= Resolver.MAX_HOPS
    ensures ReadFromLastReply(env, zone, Walk(env, zone, depth, server, sent).0, Walk(env, zone, depth, server, sent).1)
    decreases Resolver.MAX_HOPS - depth
  {
    if depth < Resolver.MAX_HOPS {
      WalkByStep(env, zone, depth, server, sent);
      var (next, asked) := Step(env, zone, server, sent);
      if next != "" {
        DelegationHasProvenance(env, zone, depth + 1, next, asked);
      } else if Outcome(env, zone, server).Success? {
        OutcomeIsRead(env, zone, server, sent);
      }
    }
  }
}
