/** What the walkers read from a message's sections, said of positions: prober/prober.go, prober/spf_resolve.go. */
module Sections {
  import opened Wrappers
  import opened Dns
  import opened Sequences

  /** A question's name is absolute: as it is, or with the final dot it lacks. */
  lemma FqdnIsAbsolute(name: string)
    ensures Fqdn(name) != "" && Fqdn(name)[|Fqdn(name)| - 1] == '.'
    ensures if name != "" && name[|name| - 1] == '.' then Fqdn(name) == name else Fqdn(name) == name + ['.']
  {
  }

  // ----- answers -----

  /** An A question collects the A records' addresses, all of them and nothing else, in order. */
  lemma {:induction false} IPv4At(answer: seq<RR>) returns (at: seq<nat>)
    ensures Increasing(at) && forall k: nat :: k in at <==> k < |answer| && answer[k].A?
    ensures |Addresses(answer, QA)| == |at|
    ensures forall i :: 0 <= i < |at| ==> at[i] < |answer| && Addresses(answer, QA)[i] == answer[at[i]].addr
  {
    at := [];
    if answer != [] {
      var init := answer[..|answer| - 1];
      at := IPv4At(init);
      if answer[|init|].A? {
        IncreasingSnoc(at, |init|);
        at := at + [|init|];
      }
    }
  }

  /** And an AAAA question the AAAA records'. */
  lemma {:induction false} IPv6At(answer: seq<RR>) returns (at: seq<nat>)
    ensures Increasing(at) && forall k: nat :: k in at <==> k < |answer| && answer[k].AAAA?
    ensures |Addresses(answer, QAAAA)| == |at|
    ensures forall i :: 0 <= i < |at| ==> at[i] < |answer| && Addresses(answer, QAAAA)[i] == answer[at[i]].addr
  {
    at := [];
    if answer != [] {
      var init := answer[..|answer| - 1];
      at := IPv6At(init);
      if answer[|init|].AAAA? {
        IncreasingSnoc(at, |init|);
        at := at + [|init|];
      }
    }
  }

  // ----- referrals -----

  /** The hosts of the NS records, all of them, in order. */
  lemma {:induction false} NSHostsAt(section: seq<RR>) returns (at: seq<nat>)
    ensures Increasing(at) && forall k: nat :: k in at <==> k < |section| && section[k].NS?
    ensures |NSHosts(section)| == |at|
    ensures forall i :: 0 <= i < |at| ==> at[i] < |section| && NSHosts(section)[i] == section[at[i]].host
  {
    at := [];
    if section != [] {
      var init, last := section[..|section| - 1], section[|section| - 1];
      at := NSHostsAt(init);
      NSHostsSnoc(init, last);
      assert section == init + [last];
      if last.NS? {
        IncreasingSnoc(at, |init|);
        at := at + [|init|];
      }
    }
  }

  lemma {:induction false} NSHostsSnoc(section: seq<RR>, rr: RR)
    ensures NSHosts(section + [rr]) == NSHosts(section) + if rr.NS? then [rr.host] else []
  {
    NSHostsCons(rr, []);
    if section == [] {
      assert [] + [rr] == [rr] == [rr] + [];
    } else {
      var first, rest := section[0], section[1..];
      NSHostsSnoc(rest, rr);
      NSHostsCons(first, rest);
      NSHostsCons(first, rest + [rr]);
      assert section == [first] + rest && section + [rr] == [first] + (rest + [rr]);
    }
  }

  lemma NSHostsCons(rr: RR, section: seq<RR>)
    ensures NSHosts([rr] + section) == (if rr.NS? then [rr.host] else []) + NSHosts(section)
  {
    assert ([rr] + section)[1..] == section;
  }

  /** An A record for the name, and no later one. */
  ghost predicate IsLastA(extra: seq<RR>, name: string, i: nat) {
    i < |extra| && extra[i].A? && extra[i].name == name && forall j :: i < j < |extra| ==> !NamesA(extra[j], name)
  }

  /** An AAAA record for the name, and no earlier one. */
  ghost predicate IsFirstAAAA(extra: seq<RR>, name: string, i: nat) {
    i < |extra| && extra[i].AAAA? && extra[i].name == name && forall j :: 0 <= j < i ==> !NamesAAAA(extra[j], name)
  }

  ghost predicate NamesA(rr: RR, name: string) {
    rr.A? && rr.name == name
  }

  ghost predicate NamesAAAA(rr: RR, name: string) {
    rr.AAAA? && rr.name == name
  }

  lemma {:induction false} LastAIs(extra: seq<RR>, name: string, i: nat)
    requires IsLastA(extra, name, i)
    ensures LastA(extra, name) == Some(extra[i].addr)
    decreases |extra|
  {
    if i < |extra| - 1 {
      assert !NamesA(extra[|extra| - 1], name);
      LastAIs(extra[..|extra| - 1], name, i);
    }
  }

  lemma {:induction false} FirstAAAAIs(extra: seq<RR>, name: string, i: nat)
    requires IsFirstAAAA(extra, name, i)
    ensures FirstAAAA(extra, name) == Some(extra[i].addr)
    decreases |extra|
  {
    var init := extra[..|extra| - 1];
    if i < |init| {
      FirstAAAAIs(init, name, i);
    } else if v :| FirstAAAA(init, name) == Some(v) {
      var j :| 0 <= j < |init| && init[j] == AAAA(name, v);
      assert NamesAAAA(extra[j], name);
    }
  }

  lemma {:induction false} FindLastA(extra: seq<RR>, name: string) returns (i: nat)
    requires exists j :: 0 <= j < |extra| && NamesA(extra[j], name)
    ensures IsLastA(extra, name, i)
  {
    i := |extra| - 1;
    if !NamesA(extra[i], name) {
      var init := extra[..i];
      var j :| 0 <= j < |extra| && NamesA(extra[j], name);
      assert NamesA(init[j], name);
      i := FindLastA(init, name);
    }
  }

  lemma {:induction false} FindFirstAAAA(extra: seq<RR>, name: string) returns (i: nat)
    requires exists j :: 0 <= j < |extra| && NamesAAAA(extra[j], name)
    ensures IsFirstAAAA(extra, name, i)
  {
    var init := extra[..|extra| - 1];
    if j :| 0 <= j < |init| && NamesAAAA(init[j], name) {
      i := FindFirstAAAA(init, name);
    } else {
      i := |init|;
      forall j | 0 <= j < i ensures !NamesAAAA(extra[j], name) {
        assert !NamesAAAA(init[j], name);
      }
    }
  }

  /**
   * A name's glue, for every interleaving: the address of its last A record, or, if it has none, of
   * its first AAAA record; nothing if it has neither.
   */
  lemma GlueIsExact(extra: seq<RR>, name: string)
    ensures forall i: nat :: IsLastA(extra, name, i) ==> GlueFor(extra, name) == Some(extra[i].addr)
    ensures (forall j :: 0 <= j < |extra| ==> !NamesA(extra[j], name)) ==>
              forall i: nat :: IsFirstAAAA(extra, name, i) ==> GlueFor(extra, name) == Some(extra[i].addr)
    ensures GlueFor(extra, name).Some? <==>
              exists j :: 0 <= j < |extra| && (NamesA(extra[j], name) || NamesAAAA(extra[j], name))
  {
    forall i: nat | IsLastA(extra, name, i) ensures GlueFor(extra, name) == Some(extra[i].addr) {
      LastAIs(extra, name, i);
    }
    if forall j :: 0 <= j < |extra| ==> !NamesA(extra[j], name) {
      NoA(extra, name);
      forall i: nat | IsFirstAAAA(extra, name, i) ensures GlueFor(extra, name) == Some(extra[i].addr) {
        FirstAAAAIs(extra, name, i);
      }
    }
    GlueExistsIff(extra, name);
  }

  lemma NoA(extra: seq<RR>, name: string)
    requires forall j :: 0 <= j < |extra| ==> !NamesA(extra[j], name)
    ensures LastA(extra, name).None?
  {
  }

  lemma GlueExistsIff(extra: seq<RR>, name: string)
    ensures GlueFor(extra, name).Some? <==>
              exists j :: 0 <= j < |extra| && (NamesA(extra[j], name) || NamesAAAA(extra[j], name))
  {
    if j :| 0 <= j < |extra| && NamesA(extra[j], name) {
      var i := FindLastA(extra, name);
      LastAIs(extra, name, i);
    } else {
      NoA(extra, name);
      if j :| 0 <= j < |extra| && NamesAAAA(extra[j], name) {
        var i := FindFirstAAAA(extra, name);
        FirstAAAAIs(extra, name, i);
      }
      if v :| FirstAAAA(extra, name) == Some(v) {
        var j :| 0 <= j < |extra| && extra[j] == AAAA(name, v);
        assert NamesAAAA(extra[j], name);
      }
    }
  }
}
