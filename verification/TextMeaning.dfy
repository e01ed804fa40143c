/** What the text functions mean, said of characters and positions. */
module TextMeaning {
  import opened Text

  // ----- letters -----

  const UPPER: string := "ABCDEFGHIJKLMNOPQRSTUVWXYZ"
  const LOWER: string := "abcdefghijklmnopqrstuvwxyz"

  /** The same character, or the two cases of one letter. */
  ghost predicate SameLetter(c: char, d: char) {
    c == d || exists i :: 0 <= i < 26 && ((c == UPPER[i] && d == LOWER[i]) || (c == LOWER[i] && d == UPPER[i]))
  }

  ghost predicate SameWord(a: string, b: string) {
    |a| == |b| && forall i :: 0 <= i < |a| ==> SameLetter(a[i], b[i])
  }

  lemma Alphabet(i: nat)
    requires i < 26
    ensures UPPER[i] as int == 'A' as int + i && LOWER[i] as int == 'a' as int + i
  {
  }

  lemma LettersFold(c: char, d: char)
    ensures LowerChar(c) == LowerChar(d) <==> SameLetter(c, d)
  {
    if 'A' <= c <= 'Z' {
      Alphabet(c as int - 'A' as int);
    }
    if 'A' <= d <= 'Z' {
      Alphabet(d as int - 'A' as int);
    }
    forall i | 0 <= i < 26 ensures LowerChar(UPPER[i]) == LowerChar(LOWER[i]) {
      Alphabet(i);
    }
  }

  /** Folding compares texts letter by letter, whatever the case of each. */
  lemma FoldIsSameWord(a: string, b: string)
    ensures EqualFold(a, b) <==> SameWord(a, b)
  {
    forall i | 0 <= i < |a| && i < |b| ensures ToLower(a)[i] == ToLower(b)[i] <==> SameLetter(a[i], b[i]) {
      LettersFold(a[i], b[i]);
    }
    if SameWord(a, b) {
      assert ToLower(a) == ToLower(b);
    }
    if ToLower(a) == ToLower(b) {
      assert |a| == |ToLower(a)| == |b|;
      forall i | 0 <= i < |a| ensures SameLetter(a[i], b[i]) {
        assert ToLower(a)[i] == ToLower(b)[i];
      }
    }
  }

  // ----- words -----

  /** The white space of a record: space, tab, line feed, vertical tab, form feed, carriage return. */
  ghost predicate Blank(s: string) {
    forall c <- s :: c in {' ', '\t', '\n', '\U{0B}', '\U{0C}', '\r'}
  }

  ghost predicate OneWord(w: Term) {
    forall i :: 0 <= i < |w| ==> !Blank([w[i]])
  }

  /** Words with gaps around them. */
  function Spread(words: seq<Term>, gaps: seq<string>): string
    requires |gaps| == |words| + 1
  {
    if words == [] then gaps[0] else gaps[0] + words[0] + Spread(words[1..], gaps[1..])
  }

  /** Gaps are white space, and between two words there is some. */
  ghost predicate AreGaps(gaps: seq<string>) {
    && (forall i :: 0 <= i < |gaps| ==> Blank(gaps[i]))
    && (forall i :: 0 < i < |gaps| - 1 ==> gaps[i] != "")
  }

  lemma SpaceIsBlank(c: char)
    ensures IsSpace(c) <==> Blank([c])
  {
    assert c in [c] && forall x <- [c] :: x == c;
    assert '\t' as int == 9 && '\n' as int == 10 && '\U{0B}' as int == 11 && '\U{0C}' as int == 12 && '\r' as int == 13;
  }

  lemma UnspacedIsOneWord(w: Term)
    requires forall i :: 0 <= i < |w| ==> !IsSpace(w[i])
    ensures OneWord(w)
  {
    forall i | 0 <= i < |w| ensures !Blank([w[i]]) {
      SpaceIsBlank(w[i]);
    }
  }

  lemma BlankParts(a: string, b: string)
    ensures Blank(a + b) <==> Blank(a) && Blank(b)
  {
    assert forall c :: c in a + b <==> c in a || c in b;
  }

  lemma {:induction false} FieldsAfterGap(gap: string, s: string)
    requires Blank(gap)
    ensures Fields(gap + s) == Fields(s)
  {
    if gap == "" {
      assert gap + s == s;
    } else {
      assert gap == [gap[0]] + gap[1..] && gap + s == [gap[0]] + (gap[1..] + s);
      BlankParts([gap[0]], gap[1..]);
      SpaceIsBlank(gap[0]);
      FieldsAfterGap(gap[1..], s);
    }
  }

  /** A word, and what follows its gap. */
  lemma FieldsAfterWord(w: Term, s: string)
    requires OneWord(w) && (s == "" || IsSpace(s[0]))
    ensures Fields(w + s) == [w] + Fields(s)
  {
    forall i | 0 <= i < |w| ensures !IsSpace((w + s)[i]) {
      SpaceIsBlank(w[i]);
    }
    WordLengthIs(w + s, |w|);
    assert (w + s)[..|w|] == w && (w + s)[|w|..] == s;
  }

  lemma {:induction false} FieldsOfSpread(words: seq<Term>, gaps: seq<string>)
    requires |gaps| == |words| + 1 && AreGaps(gaps) && forall w <- words :: OneWord(w)
    ensures Fields(Spread(words, gaps)) == words
    decreases |words|
  {
    if words == [] {
      FieldsAfterGap(gaps[0], "");
      assert gaps[0] + "" == gaps[0];
    } else {
      var rest := Spread(words[1..], gaps[1..]);
      FieldsOfSpread(words[1..], gaps[1..]);
      RestStartsWithSpace(words[1..], gaps[1..], |words| > 1);
      FieldsAfterWord(words[0], rest);
      FieldsAfterGap(gaps[0], words[0] + rest);
      assert gaps[0] + words[0] + rest == gaps[0] + (words[0] + rest);
    }
  }

  lemma RestStartsWithSpace(words: seq<Term>, gaps: seq<string>, more: bool)
    requires |gaps| == |words| + 1 && (forall i :: 0 <= i < |gaps| ==> Blank(gaps[i]))
    requires words != [] ==> gaps[0] != ""
    ensures Spread(words, gaps) == "" || IsSpace(Spread(words, gaps)[0])
  {
    if gaps[0] != "" {
      assert gaps[0] == [gaps[0][0]] + gaps[0][1..];
      BlankParts([gaps[0][0]], gaps[0][1..]);
      SpaceIsBlank(gaps[0][0]);
    }
  }

  /** Every text is its fields with gaps around them. */
  lemma {:induction false} EveryTextIsSpread(s: string) returns (gaps: seq<string>)
    ensures |gaps| == |Fields(s)| + 1 && AreGaps(gaps)
    ensures forall w <- Fields(s) :: OneWord(w)
    ensures s == Spread(Fields(s), gaps)
    ensures s != "" && !IsSpace(s[0]) ==> gaps[0] == ""
    ensures s != "" && IsSpace(s[0]) ==> gaps[0] != ""
    decreases |s|
  {
    if s == "" {
      gaps := [""];
    } else if IsSpace(s[0]) {
      gaps := EveryTextIsSpread(s[1..]);
      SpaceIsBlank(s[0]);
      BlankParts([s[0]], gaps[0]);
      assert s == [s[0]] + s[1..];
      gaps := LongerGap(s[0], s[1..], Fields(s), gaps);
    } else {
      var n := WordLength(s);
      var w: Term, rest := s[..n], s[n..];
      forall i | 0 <= i < n ensures !Blank([w[i]]) {
        SpaceIsBlank(w[i]);
      }
      gaps := EveryTextIsSpread(rest);
      assert s == w + rest;
      gaps := OneMoreWord(w, Fields(rest), rest, gaps);
    }
  }

  lemma LongerGap(c: char, s: string, words: seq<Term>, gaps: seq<string>) returns (longer: seq<string>)
    requires |gaps| == |words| + 1 && AreGaps(gaps) && s == Spread(words, gaps) && Blank([c])
    ensures |longer| == |words| + 1 && AreGaps(longer) && [c] + s == Spread(words, longer) && longer[0] != ""
  {
    BlankParts([c], gaps[0]);
    longer := [[c] + gaps[0]] + gaps[1..];
    assert longer[1..] == gaps[1..];
    forall i | 0 < i < |longer| ensures longer[i] == gaps[i] {
    }
    if words == [] {
      assert [c] + s == longer[0];
    } else {
      var rest := Spread(words[1..], gaps[1..]);
      assert [c] + (gaps[0] + words[0] + rest) == [c] + gaps[0] + words[0] + rest;
    }
  }

  lemma OneMoreWord(w: Term, words: seq<Term>, s: string, gaps: seq<string>) returns (more: seq<string>)
    requires |gaps| == |words| + 1 && AreGaps(gaps) && s == Spread(words, gaps)
    requires words != [] ==> gaps[0] != ""
    ensures |more| == |words| + 2 && AreGaps(more) && w + s == Spread([w] + words, more) && more[0] == ""
  {
    more := [""] + gaps;
    assert more[1..] == gaps && ([w] + words)[1..] == words;
    forall i | 0 < i < |more| ensures more[i] == gaps[i - 1] {
    }
    assert "" + w + s == w + s;
  }

  // ----- parts of a text -----

  /** `sub` starts at position `i`. */
  ghost predicate StandsAt(s: string, sub: string, i: nat) {
    i + |sub| <= |s| && s[i..i + |sub|] == sub
  }

  lemma {:induction false} ContainsIff(s: string, sub: string)
    ensures Contains(s, sub) <==> exists i: nat :: StandsAt(s, sub, i)
  {
    if HasPrefix(s, sub) {
      assert StandsAt(s, sub, 0);
    } else if s != "" {
      ContainsIff(s[1..], sub);
      if i: nat :| StandsAt(s[1..], sub, i) {
        assert s[i + 1..i + 1 + |sub|] == s[1..][i..i + |sub|];
        assert StandsAt(s, sub, i + 1);
      }
      if i: nat :| StandsAt(s, sub, i) {
        assert i > 0;
        assert s[1..][i - 1..i - 1 + |sub|] == s[i..i + |sub|];
        assert StandsAt(s[1..], sub, i - 1);
      }
    }
  }

  lemma {:induction false} TrimLeftCuts(s: string) returns (u: string)
    ensures s == u + TrimLeft(s) && Blank(u)
  {
    u := "";
    if s != "" && IsSpace(s[0]) {
      u := TrimLeftCuts(s[1..]);
      SpaceIsBlank(s[0]);
      BlankParts([s[0]], u);
      assert s == [s[0]] + s[1..];
      u := [s[0]] + u;
    }
  }

  lemma {:induction false} TrimRightCuts(s: string) returns (v: string)
    ensures s == TrimRight(s) + v && Blank(v)
    ensures TrimRight(s) == "" || TrimRight(s)[0] == s[0]
  {
    v := "";
    if s != "" && IsSpace(s[|s| - 1]) {
      var init, c := s[..|s| - 1], s[|s| - 1];
      v := TrimRightCuts(init);
      SpaceIsBlank(c);
      BlankParts(v, [c]);
      assert s == init + [c];
      v := v + [c];
    }
  }

  /** Only white space is cut, at the ends, and all of it. */
  lemma TrimSpaceIsExact(s: string) returns (u: string, v: string)
    ensures s == u + TrimSpace(s) + v && Blank(u) && Blank(v)
    ensures TrimSpace(s) != "" ==> !Blank([TrimSpace(s)[0]]) && !Blank([TrimSpace(s)[|TrimSpace(s)| - 1]])
  {
    u := TrimLeftCuts(s);
    v := TrimRightCuts(TrimLeft(s));
    assert s == u + TrimSpace(s) + v;
    if TrimSpace(s) != "" {
      EndsOfTrimmed(TrimLeft(s), TrimSpace(s));
    }
  }

  lemma EndsOfTrimmed(left: string, t: string)
    requires t != "" && left != "" && !IsSpace(left[0]) && t[0] == left[0] && !IsSpace(t[|t| - 1])
    ensures !Blank([t[0]]) && !Blank([t[|t| - 1]])
  {
    SpaceIsBlank(t[0]);
    SpaceIsBlank(t[|t| - 1]);
  }

  /** `a` is smaller at the first position where the two differ. */
  ghost predicate SmallerAt(a: string, b: string, i: nat) {
    i < |a| && i < |b| && a[..i] == b[..i] && a[i] < b[i]
  }

  lemma SmallerAtLater(a: string, b: string, i: nat)
    requires a != "" && b != "" && a[0] == b[0]
    ensures SmallerAt(a, b, i + 1) <==> SmallerAt(a[1..], b[1..], i)
  {
    if i + 1 < |a| && i + 1 < |b| {
      assert a[..i + 1] == [a[0]] + a[1..][..i] && b[..i + 1] == [b[0]] + b[1..][..i];
      assert a[..i + 1][1..] == a[1..][..i] && b[..i + 1][1..] == b[1..][..i];
    }
  }

  /** Go's order on strings: by the first difference, a proper prefix first. */
  lemma {:induction false} LessIsLexicographic(a: string, b: string)
    ensures Less(a, b) <==> a < b || exists i: nat :: SmallerAt(a, b, i)
  {
    if a != "" && b != "" && a[0] == b[0] {
      LessIsLexicographic(a[1..], b[1..]);
      assert a == [a[0]] + a[1..] && b == [b[0]] + b[1..];
      if i: nat :| SmallerAt(a[1..], b[1..], i) {
        SmallerAtLater(a, b, i);
      }
      if i: nat :| SmallerAt(a, b, i) {
        SmallerAtLater(a, b, i - 1);
      }
    } else if a != "" && b != "" {
      FirstDiffers(a, b);
    }
  }

  lemma FirstDiffers(a: string, b: string)
    requires a != "" && b != "" && a[0] != b[0]
    ensures !(a < b) && (a[0] < b[0] <==> exists i: nat :: SmallerAt(a, b, i))
  {
    assert a[0] < b[0] ==> SmallerAt(a, b, 0);
    forall i: nat | SmallerAt(a, b, i) ensures a[0] < b[0] {
      if i > 0 {
        SameFirst(a, b, i);
      }
    }
  }

  lemma SameFirst(a: string, b: string, i: nat)
    requires 0 < i <= |a| && i <= |b| && a[..i] == b[..i]
    ensures a[0] == b[0]
  {
    assert a[0] == a[..i][0] && b[0] == b[..i][0];
  }
}
