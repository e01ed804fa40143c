/** The smallest record the lookup counter misjudges. */
module SpfExample {
  import opened Wrappers
  import opened Text
  import opened TextMeaning
  import opened SpfRecord
  import opened SpfLookup

  const INCLUDE_X: Mechanism := Mechanism(Include, "x", false)

  lemma MechanismsAppend(fields: seq<Term>, f: Term, all: seq<Term>, ms: seq<Mechanism>)
    requires all == fields + [f] && MechanismsOf(fields) == ms && !EqualFold(f, VERSION)
    ensures MechanismsOf(all) == ms + [Classify(f)]
  {
    MechanismsSnoc(fields, f);
  }

  lemma MechanismsOfTwo(v: Term, a: Term)
    requires EqualFold(v, VERSION) && !EqualFold(a, VERSION)
    ensures MechanismsOf([v, a]) == [Classify(a)]
  {
    MechanismsSnoc([], v);
    MechanismsSnoc([v], a);
    assert [] + [v] == [v] && [v] + [a] == [v, a];
  }

  lemma MechanismsOfThree(v: Term, a: Term, b: Term)
    requires EqualFold(v, VERSION) && !EqualFold(a, VERSION) && !EqualFold(b, VERSION)
    ensures MechanismsOf([v, a, b]) == [Classify(a), Classify(b)]
  {
    MechanismsOfTwo(v, a);
    MechanismsAppend([v, a], b, [v, a, b], [Classify(a)]);
  }

  lemma FieldsOfTwo(v: Term, a: Term)
    requires OneWord(v) && OneWord(a)
    ensures Fields(v + " " + a) == [v, a]
  {
    FieldsAfterWord(a, "");
    assert a + "" == a && Fields("") == [];
    TwoWords(v, a);
  }

  lemma TwoWords(w: Term, rest: string)
    requires OneWord(w)
    ensures Fields(w + " " + rest) == [w] + Fields(rest)
  {
    assert w + " " + rest == w + (" " + rest);
    FieldsAfterWord(w, " " + rest);
    FieldsAfterGap(" ", rest);
  }

  lemma FieldsOfThree(v: Term, a: Term, b: Term)
    requires OneWord(v) && OneWord(a) && OneWord(b)
    ensures Fields(v + " " + (a + " " + b)) == [v, a, b]
  {
    FieldsOfTwo(a, b);
    TwoWords(v, a + " " + b);
  }

  lemma IncludeTerm(inc: Term)
    requires inc == "include:x"
    ensures Classify(inc) == INCLUDE_X && OneWord(inc) && !EqualFold(inc, VERSION)
  {
    assert ToLower(inc) == inc;
    assert inc[8..] == "x";
    assert !Contains("x", "%{");
    assert |ToLower(inc)| != |ToLower(VERSION)|;
    UnspacedIsOneWord(inc);
  }

  lemma OtherTerms(v: Term, all: Term)
    requires v == "v=spf1" && all == "-all"
    ensures Classify(all) == Plain(All) && OneWord(all) && !EqualFold(all, VERSION)
    ensures OneWord(v) && EqualFold(v, VERSION)
  {
    assert ToLower(Body(all)) == "all";
    assert |ToLower(all)| != |ToLower(VERSION)|;
    UnspacedIsOneWord(v);
    UnspacedIsOneWord(all);
  }

  lemma FromWords(record: string, leaf: string, v: Term, inc: Term, all: Term)
    requires OneWord(v) && OneWord(inc) && OneWord(all)
    requires record == v + " " + (inc + " " + inc) && leaf == v + " " + all
    requires EqualFold(v, VERSION) && !EqualFold(inc, VERSION) && !EqualFold(all, VERSION)
    ensures Mechanisms(record) == [Classify(inc), Classify(inc)]
    ensures Mechanisms(leaf) == [Classify(all)]
  {
    FieldsOfThree(v, inc, inc);
    MechanismsOfThree(v, inc, inc);
    FieldsOfTwo(v, all);
    MechanismsOfTwo(v, all);
  }

  /** The tree under one include of a leaf that looks nothing up. */
  lemma TreeOfTwoIncludes(fetch: Fetch, leaf: string, d: nat)
    requires d > 0 && fetch("x") == Some(leaf) && Mechanisms(leaf) == [Plain(All)]
    ensures FullCount(fetch, [INCLUDE_X, INCLUDE_X], false, d) == 2
    ensures Targets(fetch, [INCLUDE_X, INCLUDE_X], false, d) == ["x", "x"]
  {
    assert [Plain(All)][1..] == [] && [INCLUDE_X, INCLUDE_X][1..] == [INCLUDE_X] && [INCLUDE_X][1..] == [];
    assert FullCount(fetch, [Plain(All)], HasAll(leaf), d - 1) == 0;
    assert Targets(fetch, [Plain(All)], HasAll(leaf), d - 1) == [];
    assert TermCount(fetch, INCLUDE_X, false, d) == 1;
    assert TermTargets(fetch, INCLUDE_X, false, d) == ["x"];
    assert FullCount(fetch, [INCLUDE_X], false, d) == 1;
    assert Targets(fetch, [INCLUDE_X], false, d) == ["x"];
  }

  /**
   * The source calls 0-10 the exact total of any in-budget record. It is not, for the record
   * "v=spf1 include:x include:x" when x publishes "v=spf1 -all": two lookups in all, no cycle,
   * and the verdict is eleven. (The records are built from their words, as `v`, `inc` and `all`.)
   */
  lemma RepeatedIncludeReadsOverBudget(fetch: Fetch, v: Term, inc: Term, all: Term)
    requires v == "v=spf1" && inc == "include:x" && all == "-all"
    requires fetch("x") == Some(v + " " + all)
    ensures
      var record := v + " " + (inc + " " + inc);
      && (forall d: nat :: d > 0 ==> FullCount(fetch, Mechanisms(record), HasAll(record), d) == 2)
      && Verdict(fetch, record).count == OVER_BUDGET
      && !Verdict(fetch, record).complete
  {
    IncludeTerm(inc);
    OtherTerms(v, all);
    FromWords(v + " " + (inc + " " + inc), v + " " + all, v, inc, all);
    TwoIncludesOfALeaf(fetch, v + " " + (inc + " " + inc), v + " " + all);
  }

  lemma TwoIncludesOfALeaf(fetch: Fetch, record: string, leaf: string)
    requires fetch("x") == Some(leaf)
    requires Mechanisms(record) == [INCLUDE_X, INCLUDE_X] && Mechanisms(leaf) == [Plain(All)]
    ensures forall d: nat :: d > 0 ==> FullCount(fetch, Mechanisms(record), HasAll(record), d) == 2
    ensures Verdict(fetch, record).count == OVER_BUDGET
    ensures !Verdict(fetch, record).complete
  {
    forall d: nat | d > 0 ensures FullCount(fetch, Mechanisms(record), HasAll(record), d) == 2 {
      TreeOfTwoIncludes(fetch, leaf, d);
    }
    TreeOfTwoIncludes(fetch, leaf, MAX_LOOKUPS);
    VerdictMeetsReference(fetch, record, MAX_LOOKUPS);
    assert ["x", "x"][0] == ["x", "x"][1];
  }
}
