/** What the lookup verdict says of a record's words: prober/spf_lookup.go and prober/spf.go together. */
module SpfVerdict {
  import opened Wrappers
  import opened Text
  import opened TextMeaning
  import opened SpfRecord
  import opened SpfText
  import opened SpfLookup

  // ----- the reference, on words -----

  /** What a piece of a record asks for: lookups in all, the targets in order, and whether all of them resolve. */
  datatype Demand = Demand(lookups: nat, targets: seq<string>, resolved: bool)

  /** An include, or a redirect of a record without `all`. */
  ghost predicate AsksFor(f: Term, hasAll: bool, target: string) {
    Spelled(f, "include:", target) || (!hasAll && Spelled(f, "redirect=", target))
  }

  ghost predicate SaysAll(words: seq<Term>) {
    exists w <- words :: Spelled(w, "all", "")
  }

  ghost function DemandOf(fetch: Fetch, words: seq<Term>, hasAll: bool, d: nat): Demand
    decreases d, 1, |words|
  {
    if words == [] then Demand(0, [], true)
    else
      var one, rest := WordDemand(fetch, words[0], hasAll, d), DemandOf(fetch, words[1..], hasAll, d);
      Demand(one.lookups + rest.lookups, one.targets + rest.targets, one.resolved && rest.resolved)
  }

  /** One word; includes and redirects are expanded `d` levels down. */
  ghost function WordDemand(fetch: Fetch, f: Term, hasAll: bool, d: nat): Demand
    decreases d, 0, 0
  {
    if SameWord(f, "v=spf1") then Demand(0, [], true)
    else if IsLookupWord(f) then Demand(1, [], true)
    else if exists target :: AsksFor(f, hasAll, target) then
      var target :| AsksFor(f, hasAll, target);
      if HasMacro(target) then Demand(1, [], false)
      else
        match fetch(target)
        case None => Demand(1, [target], false)
        case Some(record) =>
          if d == 0 then Demand(1, [target], true)
          else
            var under := DemandOf(fetch, Fields(record), SaysAll(Fields(record)), d - 1);
            Demand(1 + under.lookups, [target] + under.targets, under.resolved)
    else Demand(0, [], true)
  }

  // ----- it is the tree -----

  lemma VersionWord(f: Term)
    ensures EqualFold(f, VERSION) <==> SameWord(f, "v=spf1")
  {
    FoldIsSameWord(f, VERSION);
  }

  lemma {:induction false} MechanismsCons(w: Term, rest: seq<Term>)
    ensures MechanismsOf([w] + rest)
         == (if EqualFold(w, VERSION) then [] else [Classify(w)]) + MechanismsOf(rest)
  {
    if rest == [] {
      assert [w] + rest == [w] && [w][..0] == [];
    } else {
      var init, last := rest[..|rest| - 1], rest[|rest| - 1];
      MechanismsCons(w, init);
      assert [w] + rest == ([w] + init) + [last];
      MechanismsSnoc([w] + init, last);
    }
  }

  lemma {:induction false} AllIsSaid(words: seq<Term>)
    ensures AnyAll(MechanismsOf(words)) <==> SaysAll(words)
  {
    AllTermsAgreement(words);
    forall f | f in words ensures AllQualifier(f) != "none" <==> Spelled(f, "all", "") {
      AllTermAgreement(f);
      TermMeans(f);
    }
  }

  /** The term a word stands for asks for what the word asks for. */
  lemma WordAsks(f: Term, hasAll: bool)
    ensures Follows(Classify(f), hasAll) <==> exists target :: AsksFor(f, hasAll, target)
    ensures forall target :: AsksFor(f, hasAll, target) ==>
              Classify(f).target == target && (Classify(f).hasMacro <==> HasMacro(target))
    ensures Classify(f).kind in {A, MX, PTR, Exists} <==> IsLookupWord(f)
  {
    TermMeans(f);
    forall target | AsksFor(f, hasAll, target)
      ensures Classify(f).target == target && (Classify(f).hasMacro <==> HasMacro(target))
    {
      TargetMeans(f, target);
    }
    if Classify(f).kind == Include {
      var target :| Spelled(f, "include:", target);
      assert AsksFor(f, hasAll, target);
    }
    if Classify(f).kind == Redirect && !hasAll {
      var target :| Spelled(f, "redirect=", target);
      assert AsksFor(f, hasAll, target);
    }
  }

  ghost function TermTree(fetch: Fetch, m: Mechanism, hasAll: bool, d: nat): Demand {
    Demand(TermCount(fetch, m, hasAll, d), TermTargets(fetch, m, hasAll, d), TermResolved(fetch, m, hasAll, d))
  }

  ghost function Tree(fetch: Fetch, terms: seq<Mechanism>, hasAll: bool, d: nat): Demand {
    Demand(FullCount(fetch, terms, hasAll, d), Targets(fetch, terms, hasAll, d), Resolved(fetch, terms, hasAll, d))
  }

  /** A word that asks for a record, in terms of what lies under that record. */
  lemma WordDemandUnfolds(fetch: Fetch, f: Term, hasAll: bool, d: nat, target: string)
    requires !SameWord(f, "v=spf1") && !IsLookupWord(f) && AsksFor(f, hasAll, target)
    ensures WordDemand(fetch, f, hasAll, d) ==
      if HasMacro(target) then Demand(1, [], false)
      else if fetch(target).None? then Demand(1, [target], false)
      else if d == 0 then Demand(1, [target], true)
      else
        var words := Fields(fetch(target).value);
        var under := DemandOf(fetch, words, SaysAll(words), d - 1);
        Demand(1 + under.lookups, [target] + under.targets, under.resolved)
  {
    WordAsks(f, hasAll);
  }

  lemma TermTreeUnfolds(fetch: Fetch, m: Mechanism, hasAll: bool, d: nat)
    requires Follows(m, hasAll)
    ensures TermTree(fetch, m, hasAll, d) ==
      if m.hasMacro then Demand(1, [], false)
      else if fetch(m.target).None? then Demand(1, [m.target], false)
      else if d == 0 then Demand(1, [m.target], true)
      else
        var record := fetch(m.target).value;
        var under := Tree(fetch, Mechanisms(record), HasAll(record), d - 1);
        Demand(1 + under.lookups, [m.target] + under.targets, under.resolved)
  {
  }

  /** A word that asks for a record is its term's tree, if the record's words are theirs. */
  lemma AskingWord(fetch: Fetch, f: Term, hasAll: bool, d: nat)
    requires !SameWord(f, "v=spf1") && Follows(Classify(f), hasAll)
    requires
      var record := fetch(Classify(f).target);
      record.Some? && d > 0 ==>
        var words := Fields(record.value);
        DemandOf(fetch, words, SaysAll(words), d - 1) == Tree(fetch, MechanismsOf(words), SaysAll(words), d - 1)
    ensures WordDemand(fetch, f, hasAll, d) == TermTree(fetch, Classify(f), hasAll, d)
  {
    WordAsks(f, hasAll);
    WordDemandUnfolds(fetch, f, hasAll, d, Classify(f).target);
    TermTreeUnfolds(fetch, Classify(f), hasAll, d);
    if fetch(Classify(f).target).Some? {
      AllIsSaid(Fields(fetch(Classify(f).target).value));
    }
  }

  lemma {:induction false} WordDemandIsTree(fetch: Fetch, f: Term, hasAll: bool, d: nat)
    requires !SameWord(f, "v=spf1")
    ensures WordDemand(fetch, f, hasAll, d) == TermTree(fetch, Classify(f), hasAll, d)
    decreases d, 0, 0
  {
    if Follows(Classify(f), hasAll) {
      var record := fetch(Classify(f).target);
      if d > 0 && record.Some? {
        DemandIsTree(fetch, Fields(record.value), SaysAll(Fields(record.value)), d - 1);
      }
      AskingWord(fetch, f, hasAll, d);
    } else {
      IdleWord(fetch, f, hasAll, d);
    }
  }

  lemma IdleWord(fetch: Fetch, f: Term, hasAll: bool, d: nat)
    requires !SameWord(f, "v=spf1") && !Follows(Classify(f), hasAll)
    ensures WordDemand(fetch, f, hasAll, d) == TermTree(fetch, Classify(f), hasAll, d)
  {
    WordAsks(f, hasAll);
  }

  lemma {:induction false} DemandIsTree(fetch: Fetch, words: seq<Term>, hasAll: bool, d: nat)
    ensures DemandOf(fetch, words, hasAll, d) == Tree(fetch, MechanismsOf(words), hasAll, d)
    decreases d, 1, |words|
  {
    if words != [] {
      var w, rest := words[0], words[1..];
      assert words == [w] + rest;
      MechanismsCons(w, rest);
      VersionWord(w);
      DemandIsTree(fetch, rest, hasAll, d);
      if SameWord(w, "v=spf1") {
        assert [] + MechanismsOf(rest) == MechanismsOf(rest);
      } else {
        WordDemandIsTree(fetch, w, hasAll, d);
        TreeCons(fetch, Classify(w), MechanismsOf(rest), hasAll, d);
      }
    }
  }

  lemma TreeCons(fetch: Fetch, m: Mechanism, terms: seq<Mechanism>, hasAll: bool, d: nat)
    ensures
      var one, rest := TermTree(fetch, m, hasAll, d), Tree(fetch, terms, hasAll, d);
      Tree(fetch, [m] + terms, hasAll, d)
      == Demand(one.lookups + rest.lookups, one.targets + rest.targets, one.resolved && rest.resolved)
  {
    assert ([m] + terms)[1..] == terms;
  }

  // ----- names -----

  /** A name without its final dot, if it has one. */
  ghost predicate IsBare(name: string, bare: string) {
    name == bare + "." || (name == bare && (bare == "" || bare[|bare| - 1] != '.'))
  }

  /** The same name: letter case and one final dot do not matter. */
  ghost predicate SameName(a: string, b: string) {
    exists x, y :: IsBare(a, x) && IsBare(b, y) && SameWord(x, y)
  }

  lemma BareIsTrimmed(name: string, bare: string)
    ensures IsBare(name, bare) <==> TrimSuffix(name, ".") == bare
  {
    assert (bare + ".")[..|bare|] == bare && (bare + ".")[|bare|..] == ".";
    if name != "" {
      assert name == name[..|name| - 1] + [name[|name| - 1]];
      assert name[|name| - 1..] == [name[|name| - 1]];
    }
  }

  /** What identifies a target in the visited set. */
  lemma KeyIsName(a: string, b: string)
    ensures Key(a) == Key(b) <==> SameName(a, b)
  {
    var x, y := TrimSuffix(a, "."), TrimSuffix(b, ".");
    BareIsTrimmed(a, x);
    BareIsTrimmed(b, y);
    FoldIsSameWord(x, y);
    if x', y' :| IsBare(a, x') && IsBare(b, y') && SameWord(x', y') {
      BareIsTrimmed(a, x');
      BareIsTrimmed(b, y');
    }
  }

  // ----- the verdict -----

  /** Two targets of one name, the first of which resolves. */
  ghost predicate RepeatsByName(fetch: Fetch, targets: seq<string>) {
    exists i, j :: 0 <= i < j < |targets| && SameName(targets[i], targets[j]) && fetch(targets[i]).Some?
  }

  lemma RepeatsIsByName(fetch: Fetch, targets: seq<string>)
    ensures Repeats(fetch, targets) <==> RepeatsByName(fetch, targets)
  {
    forall i, j | 0 <= i < j < |targets|
      ensures Key(targets[i]) == Key(targets[j]) <==> SameName(targets[i], targets[j])
    {
      KeyIsName(targets[i], targets[j]);
    }
    if i, j :| 0 <= i < j < |targets| && Key(targets[i]) == Key(targets[j]) && fetch(targets[i]).Some? {
      assert SameName(targets[i], targets[j]);
    }
    if i, j :| 0 <= i < j < |targets| && SameName(targets[i], targets[j]) && fetch(targets[i]).Some? {
      assert Key(targets[i]) == Key(targets[j]);
    }
  }

  /**
   * The exact meaning of a verdict in terms of the words of the record and of those it includes. Up
   * to ten: exactly the lookups its words ask for, the fetches exactly its targets in order, complete
   * iff all of them resolve. Eleven: exactly if its words ask for more than ten lookups or name a
   * resolved target twice.
   */
  lemma VerdictByText(fetch: Fetch, record: string, d: nat)
    requires d >= 10
    ensures
      var r := Verdict(fetch, record);
      var asked := DemandOf(fetch, Fields(record), SaysAll(Fields(record)), d);
      && (r.count == 11 <==> asked.lookups > 10 || RepeatsByName(fetch, asked.targets))
      && (r.count != 11 ==>
            && r.count == asked.lookups
            && r.fetched == asked.targets
            && (r.complete <==> asked.resolved))
      && (r.count == 11 && r.complete ==> asked.lookups > 10)
  {
    DemandIsTree(fetch, Fields(record), SaysAll(Fields(record)), d);
    AllIsSaid(Fields(record));
    VerdictMeetsReference(fetch, record, d);
    RepeatsIsByName(fetch, Targets(fetch, Mechanisms(record), HasAll(record), d));
  }

  /** How many of the words are lookup words; the version token is none. */
  ghost function LookupWords(words: seq<Term>): nat {
    if words == [] then 0
    else (if IsLookupWord(words[0]) && !SameWord(words[0], "v=spf1") then 1 else 0) + LookupWords(words[1..])
  }

  lemma {:induction false} PlainDemand(fetch: Fetch, words: seq<Term>, hasAll: bool, d: nat)
    requires forall w <- words, target :: !AsksFor(w, hasAll, target)
    ensures DemandOf(fetch, words, hasAll, d) == Demand(LookupWords(words), [], true)
    decreases |words|
  {
    if words != [] {
      PlainDemand(fetch, words[1..], hasAll, d);
      assert words[0] in words;
      assert WordDemand(fetch, words[0], hasAll, d).targets == [];
    }
  }

  lemma {:induction false} NothingFollows(words: seq<Term>, hasAll: bool)
    requires forall w <- words, target :: !AsksFor(w, hasAll, target)
    ensures forall m <- MechanismsOf(words) :: !Follows(m, hasAll)
  {
    if words != [] {
      var init, w := words[..|words| - 1], words[|words| - 1];
      assert words == init + [w];
      NothingFollows(init, hasAll);
      WordAsks(w, hasAll);
    }
  }

  lemma {:induction false} PlainWalk(
    fetch: Fetch, limit: nat, terms: seq<Mechanism>, hasAll: bool, depth: nat, t: Tally)
    requires t.count <= OVER_BUDGET && forall m <- terms :: !Follows(m, hasAll)
    ensures
      var r := Walk(fetch, limit, terms, hasAll, depth, t);
      r.complete == t.complete && r.fetched == t.fetched
    decreases |terms|
  {
    if terms != [] && !t.Over() {
      StepUnfolds(fetch, limit, terms[0], hasAll, depth, t);
      PlainWalk(fetch, limit, terms[1..], hasAll, depth, Step(fetch, limit, terms[0], hasAll, depth, t));
    }
  }

  /**
   * A record that asks for no other counts its lookup words, eleven standing for more than ten: built
   * from any words and gaps, against any resolver.
   */
  lemma PlainRecordCounts(fetch: Fetch, words: seq<Term>, gaps: seq<string>)
    requires |gaps| == |words| + 1 && AreGaps(gaps) && forall w <- words :: OneWord(w)
    requires forall w <- words, target :: !AsksFor(w, SaysAll(words), target)
    ensures
      var r, n := Verdict(fetch, Spread(words, gaps)), LookupWords(words);
      r.complete && r.fetched == [] && r.count == if n > 10 then 11 else n
  {
    FieldsOfSpread(words, gaps);
    var record := Spread(words, gaps);
    PlainDemand(fetch, words, SaysAll(words), 10);
    VerdictByText(fetch, record, 10);
    AllIsSaid(words);
    NothingFollows(words, SaysAll(words));
    PlainWalk(fetch, MAX_DEPTH, Mechanisms(record), HasAll(record), 0, START);
  }
}
