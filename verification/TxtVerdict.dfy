/** What a TXT resolution and the SPF lookup built on it come to: prober/spf_resolve.go. */
module TxtVerdict {
  import opened Wrappers
  import opened Text
  import opened Dns
  import opened Sequences
  import opened Walkers
  import SpfRecord
  import Evaluation

  // ----- strings -----

  /** The text is read off as the parts: all of them, in order, nothing between them and nothing after. */
  ghost predicate ReadsAs(text: string, parts: seq<string>) {
    if parts == [] then text == "" else parts[0] <= text && ReadsAs(text[|parts[0]|..], parts[1..])
  }

  lemma {:induction false} JoinReadsAs(text: string, parts: seq<string>)
    ensures ReadsAs(text, parts) <==> text == Join(parts)
    decreases |parts|
  {
    if parts != [] {
      var first := parts[0];
      assert first <= text ==> text == first + text[|first|..];
      assert (first + Join(parts[1..]))[|first|..] == Join(parts[1..]);
      if first <= text {
        JoinReadsAs(text[|first|..], parts[1..]);
      }
    }
  }

  /** The TXT records of a section, each as one text: all of them, in order. */
  lemma TextRecordsAt(answer: seq<RR>) returns (at: seq<nat>)
    ensures Increasing(at) && forall k: nat :: k in at <==> k < |answer| && answer[k].TXT?
    ensures |TextRecords(answer)| == |at|
    ensures forall i :: 0 <= i < |at| ==> at[i] < |answer| && ReadsAs(TextRecords(answer)[i], answer[at[i]].text)
  {
    at := JoinedAt(answer);
    forall i | 0 <= i < |at| ensures ReadsAs(TextRecords(answer)[i], answer[at[i]].text) {
      JoinReadsAs(TextRecords(answer)[i], answer[at[i]].text);
    }
  }

  lemma {:induction false} JoinedAt(answer: seq<RR>) returns (at: seq<nat>)
    ensures Increasing(at) && forall k: nat :: k in at <==> k < |answer| && answer[k].TXT?
    ensures |TextRecords(answer)| == |at|
    ensures forall i :: 0 <= i < |at| ==> at[i] < |answer| && TextRecords(answer)[i] == Join(answer[at[i]].text)
  {
    at := [];
    if answer != [] {
      var init := answer[..|answer| - 1];
      at := JoinedAt(init);
      if answer[|init|].TXT? {
        IncreasingSnoc(at, |init|);
        at := at + [|init|];
      }
    }
  }

  /** The SPF record found is the first string that is one, trimmed; none is found iff none is one. */
  lemma {:induction false} FirstSPFIsFirst(txts: seq<string>)
    ensures
      match FirstSPF(txts)
      case None => forall t <- txts :: !SpfRecord.IsSPFRecord(t)
      case Some(record) =>
        exists i :: 0 <= i < |txts| && SpfRecord.IsSPFRecord(txts[i]) && record == TrimSpace(txts[i])
                    && forall j :: 0 <= j < i ==> !SpfRecord.IsSPFRecord(txts[j])
  {
    if txts != [] && !SpfRecord.IsSPFRecord(txts[0]) {
      var rest := txts[1..];
      FirstSPFIsFirst(rest);
      assert txts == [txts[0]] + rest;
      if FirstSPF(rest).Some? {
        var i :| 0 <= i < |rest| && SpfRecord.IsSPFRecord(rest[i]) && FirstSPF(rest).value == TrimSpace(rest[i])
                 && forall j :: 0 <= j < i ==> !SpfRecord.IsSPFRecord(rest[j]);
        assert txts[i + 1] == rest[i];
        forall j | 0 <= j < i + 1 ensures !SpfRecord.IsSPFRecord(txts[j]) {
          assert j > 0 ==> txts[j] == rest[j - 1];
        }
      }
    }
  }

  // ----- the walk -----

  /** A code the walk reads on at: success, or no such name. */
  ghost predicate GoodCode(resp: Message) {
    resp.rcode == NoError || resp.rcode == NXDomain
  }

  /** No referral: authoritative, or no such name, or nothing in the Authority section. */
  ghost predicate Concludes(resp: Message) {
    resp.authoritative || resp.rcode == NXDomain || resp.ns == []
  }

  /** The server a referral leads to; the log so far does not matter. */
  ghost function Following(env: Env, name: string, budget: nat, server: string): string {
    match env.net(server, name, QTXT)
    case Failure => ""
    case Success(resp) => NextTXTServer(env, resp, budget, []).0
  }

  ghost predicate RefersOn(env: Env, name: string, budget: nat, server: string) {
    && env.net(server, name, QTXT).Success?
    && GoodCode(env.net(server, name, QTXT).value)
    && !Concludes(env.net(server, name, QTXT).value)
    && Following(env, name, budget, server) != ""
    && Following(env, name, budget, server) != server
  }

  /** Where the walk stops: at the first server that does not refer on, or at its last hop. */
  ghost function Stop(env: Env, name: string, budget: nat, hop: nat, server: string): (nat, string)
    requires hop < 16
    decreases 16 - hop
  {
    if hop + 1 < 16 && RefersOn(env, name, budget, server)
    then Stop(env, name, budget, hop + 1, Following(env, name, budget, server))
    else (hop, server)
  }

  /** What the last server's reply makes of the walk: its TXT records if it concludes with a good code. */
  ghost function Said(env: Env, name: string, last: string): seq<string> {
    match env.net(last, name, QTXT)
    case Failure => []
    case Success(resp) => if GoodCode(resp) && Concludes(resp) then TextRecords(resp.answer) else []
  }

  lemma OneHop(env: Env, name: string, budget: nat, hop: nat, server: string, sent: seq<Query>)
    returns (tried: seq<Query>)
    requires hop < 16
    ensures TXTWalk(env, name, budget, hop, server, sent).0 ==
      if RefersOn(env, name, budget, server)
      then TXTWalk(env, name, budget, hop + 1, Following(env, name, budget, server), tried).0
      else Said(env, name, server)
  {
    tried := sent + [Query(server, name, QTXT)];
    if env.net(server, name, QTXT).Success? {
      var resp := env.net(server, name, QTXT).value;
      var asked := tried;
      Evaluation.AnyIgnoresPast(env, NSHosts(resp.ns), budget, asked, []);
      assert asked + [] == asked;
      tried := NextTXTServer(env, resp, budget, asked).1;
    }
  }

  /**
   * The last server's reply decides: a TXT resolution returns all TXT records of that reply if it
   * concludes with a good code, and otherwise none.
   */
  lemma {:induction false} WalkIsItsLastReply(
    env: Env, name: string, budget: nat, hop: nat, server: string, sent: seq<Query>)
    requires hop < 16
    ensures TXTWalk(env, name, budget, hop, server, sent).0
         == Said(env, name, Stop(env, name, budget, hop, server).1)
    decreases 16 - hop
  {
    var tried := OneHop(env, name, budget, hop, server, sent);
    if RefersOn(env, name, budget, server) {
      if hop + 1 < 16 {
        WalkIsItsLastReply(env, name, budget, hop + 1, Following(env, name, budget, server), tried);
      }
    }
  }

  /** Where the walk stops, its reply does not refer on, unless the hops are used up. */
  lemma {:induction false} StopsForAReason(env: Env, name: string, budget: nat, hop: nat, server: string)
    requires hop < 16
    ensures
      var (stop, last) := Stop(env, name, budget, hop, server);
      hop <= stop < 16 && (RefersOn(env, name, budget, last) ==> stop == 15)
    decreases 16 - hop
  {
    if hop + 1 < 16 && RefersOn(env, name, budget, server) {
      StopsForAReason(env, name, budget, hop + 1, Following(env, name, budget, server));
    }
  }
}
