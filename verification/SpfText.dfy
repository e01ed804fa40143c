/** SPF terms and records said of their text alone: prober/spf.go. */
module SpfText {
  import opened Text
  import opened TextMeaning
  import opened Sequences
  import opened SpfRecord

  // ----- terms -----

  /** One qualifier or none, then the word in any case, then the rest. */
  ghost predicate Spelled(f: string, word: string, rest: string) {
    exists q, w :: AreParts(f, q, w, word, rest)
  }

  ghost predicate AreParts(f: string, q: string, w: string, word: string, rest: string) {
    q in {"", "+", "-", "~", "?"} && SameWord(w, word) && f == q + w + rest
  }

  ghost predicate SpelledWithRest(f: string, word: string) {
    exists rest :: Spelled(f, word, rest)
  }

  /** Lower-case words that do not begin with a qualifier. */
  ghost predicate IsKeyword(word: string) {
    word != "" && ToLower(word) == word && !IsQualifier(word[0])
  }

  lemma Qualifiers(q: string)
    ensures q in {"+", "-", "~", "?"} <==> |q| == 1 && IsQualifier(q[0])
  {
    assert |q| == 1 ==> q == [q[0]];
  }

  /** A text begins with the word, whatever its case, and goes on with the rest. */
  ghost predicate BeginsWith(body: string, word: string, rest: string) {
    |word| <= |body| && ToLower(body)[..|word|] == word && body[|word|..] == rest
  }

  lemma BeginsWithIff(body: string, word: string, rest: string)
    requires ToLower(word) == word
    ensures BeginsWith(body, word, rest) <==> exists w :: SameWord(w, word) && body == w + rest
  {
    if BeginsWith(body, word, rest) {
      var w := body[..|word|];
      assert ToLower(w) == ToLower(body)[..|word|];
      FoldIsSameWord(w, word);
      assert body == w + rest;
    }
    if w :| SameWord(w, word) && body == w + rest {
      FoldIsSameWord(w, word);
      assert ToLower(body)[..|word|] == ToLower(w);
    }
  }

  /** A term is spelled with a keyword exactly if its body begins with the keyword, folded. */
  lemma SpelledIff(f: Term, word: string, rest: string)
    requires IsKeyword(word)
    ensures Spelled(f, word, rest) <==> BeginsWith(Body(f), word, rest)
  {
    if q, w :| AreParts(f, q, w, word, rest) {
      BodyOfSpelled(f, q, w, word, rest);
    }
    if BeginsWith(Body(f), word, rest) {
      PartsOfTerm(f, word, rest);
    }
  }

  lemma PartsOfTerm(f: Term, word: string, rest: string)
    requires IsKeyword(word) && BeginsWith(Body(f), word, rest)
    ensures Spelled(f, word, rest)
  {
    BeginsWithIff(Body(f), word, rest);
    var w :| SameWord(w, word) && Body(f) == w + rest;
    var q := QualifierOf(f);
    JoinParts(f, q, w, word, rest);
  }

  lemma JoinParts(f: string, q: string, w: string, word: string, rest: string)
    requires q in {"", "+", "-", "~", "?"} && SameWord(w, word) && f == q + (w + rest)
    ensures Spelled(f, word, rest)
  {
    assert q + (w + rest) == q + w + rest;
    assert AreParts(f, q, w, word, rest);
  }

  lemma QualifierOf(f: Term) returns (q: string)
    ensures q in {"", "+", "-", "~", "?"} && f == q + Body(f)
  {
    q := if IsQualifier(f[0]) then [f[0]] else "";
    Qualifiers(q);
  }

  lemma BodyOfSpelled(f: Term, q: string, w: string, word: string, rest: string)
    requires IsKeyword(word) && AreParts(f, q, w, word, rest)
    ensures BeginsWith(Body(f), word, rest)
  {
    FoldIsSameWord(w, word);
    assert LowerChar(w[0]) == ToLower(w)[0] == word[0];
    Qualifiers(q);
    if q == "" {
      assert f == w + rest && f[0] == w[0];
    } else {
      assert f[0] == q[0] && f[1..] == w + rest;
    }
    assert Body(f) == w + rest;
    BeginsWithIff(Body(f), word, rest);
  }

  lemma Keywords()
    ensures IsKeyword("all") && IsKeyword("include:") && IsKeyword("redirect=") && IsKeyword("exists:")
    ensures IsKeyword("a") && IsKeyword("a:") && IsKeyword("a/")
    ensures IsKeyword("mx") && IsKeyword("mx:") && IsKeyword("mx/")
    ensures IsKeyword("ptr") && IsKeyword("ptr:")
  {
  }

  /** The term is the keyword and nothing else, or begins with it. */
  lemma SpelledByBody(f: Term, word: string)
    requires IsKeyword(word)
    ensures Spelled(f, word, "") <==> ToLower(Body(f)) == word
    ensures SpelledWithRest(f, word) <==> HasPrefix(ToLower(Body(f)), word)
  {
    var body := Body(f);
    SpelledIff(f, word, "");
    assert |word| == |body| ==> ToLower(body)[..|word|] == ToLower(body);
    if |word| <= |body| {
      SpelledIff(f, word, body[|word|..]);
    }
    if rest :| Spelled(f, word, rest) {
      SpelledIff(f, word, rest);
    }
  }

  /** The mechanisms that cost a lookup and fetch nothing. */
  ghost predicate IsLookupWord(f: string) {
    || Spelled(f, "a", "") || SpelledWithRest(f, "a:") || SpelledWithRest(f, "a/")
    || Spelled(f, "mx", "") || SpelledWithRest(f, "mx:") || SpelledWithRest(f, "mx/")
    || Spelled(f, "ptr", "") || SpelledWithRest(f, "ptr:")
    || SpelledWithRest(f, "exists:")
  }

  /** A sender macro: "%{". */
  ghost predicate HasMacro(target: string) {
    exists i :: 0 <= i && i + 1 < |target| && target[i] == '%' && target[i + 1] == '{'
  }

  lemma MacroIff(target: string)
    ensures Contains(target, "%{") <==> HasMacro(target)
  {
    ContainsIff(target, "%{");
    if i: nat :| StandsAt(target, "%{", i) {
      assert target[i] == target[i..i + 2][0] && target[i + 1] == target[i..i + 2][1];
    }
    if i :| 0 <= i && i + 1 < |target| && target[i] == '%' && target[i + 1] == '{' {
      assert target[i..i + 2] == "%{";
      assert StandsAt(target, "%{", i);
    }
  }

  /**
   * What each term denotes, for every qualifier or none, every letter case and every suffix: its
   * kind by its spelling, and for an include or redirect what stands after the word.
   */
  lemma TermMeans(f: Term)
    ensures Classify(f).kind == All <==> Spelled(f, "all", "")
    ensures Classify(f).kind == A <==> Spelled(f, "a", "") || SpelledWithRest(f, "a:") || SpelledWithRest(f, "a/")
    ensures Classify(f).kind == MX <==> Spelled(f, "mx", "") || SpelledWithRest(f, "mx:") || SpelledWithRest(f, "mx/")
    ensures Classify(f).kind == PTR <==> Spelled(f, "ptr", "") || SpelledWithRest(f, "ptr:")
    ensures Classify(f).kind == Exists <==> SpelledWithRest(f, "exists:")
    ensures Classify(f).kind == Include <==> SpelledWithRest(f, "include:")
    ensures Classify(f).kind == Redirect <==> SpelledWithRest(f, "redirect=")
  {
    Keywords();
    SpelledByBody(f, "all");
    SpelledByBody(f, "a");
    SpelledByBody(f, "a:");
    SpelledByBody(f, "a/");
    SpelledByBody(f, "mx");
    SpelledByBody(f, "mx:");
    SpelledByBody(f, "mx/");
    SpelledByBody(f, "ptr");
    SpelledByBody(f, "ptr:");
    SpelledByBody(f, "exists:");
    SpelledByBody(f, "include:");
    SpelledByBody(f, "redirect=");
    PrefixesDiffer(ToLower(Body(f)));
  }

  /** No text begins with two of the keywords that end in a delimiter, or is one of the others too. */
  lemma PrefixesDiffer(s: string)
    ensures HasPrefix(s, "include:") ==> s[0] == 'i'
    ensures HasPrefix(s, "redirect=") ==> s[0] == 'r'
    ensures HasPrefix(s, "exists:") ==> s[0] == 'e'
    ensures HasPrefix(s, "a:") || HasPrefix(s, "a/") ==> s[0] == 'a' && (s[1] == ':' || s[1] == '/')
    ensures HasPrefix(s, "mx:") || HasPrefix(s, "mx/") ==> s[0] == 'm'
    ensures HasPrefix(s, "ptr:") ==> s[0] == 'p'
  {
    assert HasPrefix(s, "include:") ==> s[..8][0] == 'i';
    assert HasPrefix(s, "redirect=") ==> s[..9][0] == 'r';
    assert HasPrefix(s, "exists:") ==> s[..7][0] == 'e';
    assert HasPrefix(s, "a:") ==> s[..2][0] == 'a' && s[..2][1] == ':';
    assert HasPrefix(s, "a/") ==> s[..2][0] == 'a' && s[..2][1] == '/';
    assert HasPrefix(s, "mx:") ==> s[..3][0] == 'm';
    assert HasPrefix(s, "mx/") ==> s[..3][0] == 'm';
    assert HasPrefix(s, "ptr:") ==> s[..4][0] == 'p';
  }

  lemma TargetMeans(f: Term, target: string)
    requires Spelled(f, "include:", target) || Spelled(f, "redirect=", target)
    ensures Classify(f).target == target && (Classify(f).hasMacro <==> HasMacro(target))
  {
    Keywords();
    TermMeans(f);
    SpelledIff(f, "include:", target);
    SpelledIff(f, "redirect=", target);
    PrefixesDiffer(ToLower(Body(f)));
    MacroIff(target);
  }

  // ----- the terminal qualifier -----

  lemma NoneMeansNoAll(f: Term)
    ensures AllQualifier(f) == "none" <==> !Spelled(f, "all", "")
  {
    AllTermAgreement(f);
    TermMeans(f);
  }

  /** What an `all` term stands for, by its qualifier. */
  lemma AllQualifierMeans(f: Term)
    ensures AllQualifier(f) == "pass" <==> SameWord(f, "all") || SameWord(f, "+all")
    ensures AllQualifier(f) == "fail" <==> SameWord(f, "-all")
    ensures AllQualifier(f) == "softfail" <==> SameWord(f, "~all")
    ensures AllQualifier(f) == "neutral" <==> SameWord(f, "?all")
    ensures AllQualifier(f) == "none" <==> !Spelled(f, "all", "")
  {
    FoldIsSameWord(f, "all");
    FoldIsSameWord(f, "+all");
    FoldIsSameWord(f, "-all");
    FoldIsSameWord(f, "~all");
    FoldIsSameWord(f, "?all");
    assert ToLower("all") == "all" && ToLower("+all") == "+all" && ToLower("-all") == "-all";
    assert ToLower("~all") == "~all" && ToLower("?all") == "?all";
    NoneMeansNoAll(f);
  }

  function QualifiersOf(fields: seq<Term>): seq<string> {
    seq(|fields|, i requires 0 <= i < |fields| => AllQualifier(fields[i]))
  }

  function LastNamed(qualifiers: seq<string>): string {
    if qualifiers == [] then "none"
    else
      var last := qualifiers[|qualifiers| - 1];
      if last != "none" then last else LastNamed(qualifiers[..|qualifiers| - 1])
  }

  lemma {:induction false} TerminalIsLastNamed(fields: seq<Term>)
    ensures TerminalQualifierOf(fields) == LastNamed(QualifiersOf(fields))
  {
    if fields != [] {
      var init := fields[..|fields| - 1];
      TerminalIsLastNamed(init);
      assert QualifiersOf(fields)[..|init|] == QualifiersOf(init);
    }
  }

  lemma {:induction false} LastNamedIs(qualifiers: seq<string>, i: nat)
    requires i < |qualifiers| && qualifiers[i] != "none"
    requires forall j :: i < j < |qualifiers| ==> qualifiers[j] == "none"
    ensures LastNamed(qualifiers) == qualifiers[i]
    decreases |qualifiers|
  {
    if i < |qualifiers| - 1 {
      LastNamedIs(qualifiers[..|qualifiers| - 1], i);
    }
  }

  /** The last `all` term decides; without one the answer is "none". */
  lemma LastAllDecides(fields: seq<Term>, i: nat)
    requires i < |fields| && Spelled(fields[i], "all", "")
    requires forall j :: i < j < |fields| ==> !Spelled(fields[j], "all", "")
    ensures TerminalQualifierOf(fields) == AllQualifier(fields[i])
  {
    NoneMeansNoAll(fields[i]);
    forall j | i < j < |fields| ensures QualifiersOf(fields)[j] == "none" {
      NoneMeansNoAll(fields[j]);
    }
    TerminalIsLastNamed(fields);
    LastNamedIs(QualifiersOf(fields), i);
  }

  // ----- records -----

  /**
   * A TXT string is an SPF record exactly if, leading white space apart, it starts with the version
   * token in any case, and then ends, or holds only white space, or goes on with a space or a tab.
   */
  lemma IsSPFRecordIff(record: string)
    ensures IsSPFRecord(record) <==>
              exists u, tok, rest ::
                && record == u + tok + rest && Blank(u) && SameWord(tok, "v=spf1")
                && (Blank(rest) || rest[0] == ' ' || rest[0] == '\t')
  {
    var u, v := TrimSpaceIsExact(record);
    var r, n := TrimSpace(record), |VERSION|;
    if IsSPFRecord(record) {
      var tok, rest := r[..n], r[n..] + v;
      FoldIsSameWord(tok, VERSION);
      assert record == u + tok + rest;
      assert Blank(rest) || rest[0] == ' ' || rest[0] == '\t';
    }
    if u', tok, rest :|
      && record == u' + tok + rest && Blank(u') && SameWord(tok, "v=spf1")
      && (Blank(rest) || rest[0] == ' ' || rest[0] == '\t')
    {
      TokenIsTrimmed(record, u', tok, rest);
    }
  }

  /** Trimming cuts what stands before the token, and white space at the end. */
  lemma TokenIsTrimmed(record: string, u: string, tok: string, rest: string)
    requires record == u + tok + rest && Blank(u) && SameWord(tok, "v=spf1")
    requires Blank(rest) || rest[0] == ' ' || rest[0] == '\t'
    ensures IsSPFRecord(record)
  {
    FoldIsSameWord(tok, VERSION);
    forall i | 0 <= i < |tok| ensures !IsSpace(tok[i]) {
      assert LowerChar(tok[i]) == ToLower(tok)[i] == ToLower(VERSION)[i];
    }
    TrimLeftOfGap(u, tok + rest);
    assert record == u + (tok + rest);
    TrimRightOfToken(tok, rest);
    assert tok[..|tok|] == tok;
  }

  lemma {:induction false} TrimLeftOfGap(u: string, s: string)
    requires Blank(u) && s != "" && !IsSpace(s[0])
    ensures TrimLeft(u + s) == s
  {
    if u == "" {
      assert u + s == s;
    } else {
      assert u == [u[0]] + u[1..] && (u + s)[1..] == u[1..] + s;
      BlankParts([u[0]], u[1..]);
      SpaceIsBlank(u[0]);
      TrimLeftOfGap(u[1..], s);
    }
  }

  /** What is left after the token begins as the rest does, unless the rest is all white space. */
  lemma {:induction false} TrimRightOfToken(tok: string, rest: string)
    requires tok != "" && !IsSpace(tok[|tok| - 1])
    ensures
      var t := TrimRight(tok + rest);
      && tok <= t
      && (Blank(rest) ==> t == tok)
      && (!Blank(rest) ==> |tok| < |t| && t[|tok|] == rest[0])
    decreases |rest|
  {
    if rest == "" {
      assert tok + rest == tok;
    } else {
      var init, c := rest[..|rest| - 1], rest[|rest| - 1];
      assert rest == init + [c] && (tok + rest)[..|tok + rest| - 1] == tok + init;
      BlankParts(init, [c]);
      SpaceIsBlank(c);
      if IsSpace(c) {
        TrimRightOfToken(tok, init);
      }
    }
  }

  /** The terms the malformation check objects to: a lone qualifier, an include or redirect of nothing. */
  lemma BrokenIff(f: Term)
    ensures Broken(f) <==> f in {"+", "-", "~", "?"} || Spelled(f, "include:", "") || Spelled(f, "redirect=", "")
  {
    Keywords();
    SpelledByBody(f, "include:");
    SpelledByBody(f, "redirect=");
    Qualifiers(f);
  }

  /** The selected records are the SPF records among the strings, trimmed, in published order. */
  lemma {:induction false} SelectedAt(records: seq<string>) returns (at: seq<nat>)
    ensures Increasing(at) && forall k: nat :: k in at <==> k < |records| && IsSPFRecord(records[k])
    ensures |Selected(records)| == |at|
    ensures forall i :: 0 <= i < |at| ==> at[i] < |records| && Selected(records)[i] == TrimSpace(records[at[i]])
  {
    at := [];
    if records != [] {
      var init, last := records[..|records| - 1], records[|records| - 1];
      at := SelectedAt(init);
      if IsSPFRecord(last) {
        IncreasingSnoc(at, |init|);
        at := at + [|init|];
      }
    }
  }
}
