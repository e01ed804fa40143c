/** The part of Go's `strings` package the exporter relies on, for ASCII text. */
module Text {
  predicate IsSpace(c: char) {
    c == ' ' || '\U{09}' <= c <= '\U{0D}'
  }

  function LowerChar(c: char): char {
    if 'A' <= c <= 'Z' then (c as int + 32) as char else c
  }

  function ToLower(s: string): (r: string)
    ensures |r| == |s|
    ensures forall i :: 0 <= i < |s| ==> r[i] == LowerChar(s[i])
  {
    seq(|s|, i requires 0 <= i < |s| => LowerChar(s[i]))
  }

  predicate EqualFold(a: string, b: string) {
    ToLower(a) == ToLower(b)
  }

  predicate HasPrefix(s: string, prefix: string) {
    |prefix| <= |s| && s[..|prefix|] == prefix
  }

  predicate Contains(s: string, sub: string) {
    HasPrefix(s, sub) || (s != [] && Contains(s[1..], sub))
  }

  function TrimSuffix(s: string, suffix: string): string {
    if |suffix| <= |s| && s[|s| - |suffix|..] == suffix then s[..|s| - |suffix|] else s
  }

  function TrimLeft(s: string): (r: string)
    ensures r != [] ==> !IsSpace(r[0])
  {
    if s != [] && IsSpace(s[0]) then TrimLeft(s[1..]) else s
  }

  function TrimRight(s: string): (r: string)
    ensures r <= s
    ensures r != [] ==> !IsSpace(r[|r| - 1])
  {
    if s != [] && IsSpace(s[|s| - 1]) then TrimRight(s[..|s| - 1]) else s
  }

  function TrimSpace(s: string): string {
    TrimRight(TrimLeft(s))
  }

  /** Length of the leading run of non-space characters. */
  function WordLength(s: string): (n: nat)
    ensures n <= |s|
    ensures forall i :: 0 <= i < n ==> !IsSpace(s[i])
    ensures n < |s| ==> IsSpace(s[n])
  {
    if s == [] || IsSpace(s[0]) then 0 else 1 + WordLength(s[1..])
  }

  type Term = s: string | s != [] witness "x"

  /** `strings.Fields`: the maximal runs of non-space characters, in order. */
  function Fields(s: string): seq<Term>
    decreases |s|
  {
    if s == [] then []
    else if IsSpace(s[0]) then Fields(s[1..])
    else [s[..WordLength(s)]] + Fields(s[WordLength(s)..])
  }

  lemma {:induction false} FieldsOfTrimLeft(s: string)
    ensures Fields(TrimLeft(s)) == Fields(s)
  {
    if s != [] && IsSpace(s[0]) {
      FieldsOfTrimLeft(s[1..]);
    }
  }

  /** A trailing space never changes the fields. */
  lemma {:induction false} FieldsOfTrailingSpace(s: string, c: char)
    requires IsSpace(c)
    ensures Fields(s + [c]) == Fields(s)
    decreases |s|
  {
    if s == [] {
      assert s + [c] == [c];
      assert Fields([c][1..]) == [];
    } else if IsSpace(s[0]) {
      assert (s + [c])[1..] == s[1..] + [c];
      FieldsOfTrailingSpace(s[1..], c);
    } else {
      WordLengthBeforeSpace(s, c);
      var n := WordLength(s);
      assert (s + [c])[..n] == s[..n];
      assert (s + [c])[n..] == s[n..] + [c];
      FieldsOfTrailingSpace(s[n..], c);
    }
  }

  lemma {:induction false} WordLengthBeforeSpace(s: string, c: char)
    requires IsSpace(c)
    ensures WordLength(s + [c]) == WordLength(s)
  {
    if s == [] {
      assert s + [c] == [c];
    } else if !IsSpace(s[0]) {
      assert (s + [c])[1..] == s[1..] + [c];
      WordLengthBeforeSpace(s[1..], c);
    }
  }

  lemma {:induction false} FieldsOfTrimRight(s: string)
    ensures Fields(TrimRight(s)) == Fields(s)
    decreases |s|
  {
    if s != [] && IsSpace(s[|s| - 1]) {
      FieldsOfTrimRight(s[..|s| - 1]);
      assert s == s[..|s| - 1] + [s[|s| - 1]];
      FieldsOfTrailingSpace(s[..|s| - 1], s[|s| - 1]);
    }
  }

  lemma FieldsOfTrimSpace(s: string)
    ensures Fields(TrimSpace(s)) == Fields(s)
  {
    FieldsOfTrimRight(TrimLeft(s));
    FieldsOfTrimLeft(s);
  }

  /** The run found by `WordLength` is the only one of its kind. */
  lemma {:induction false} WordLengthIs(s: string, n: nat)
    requires n <= |s|
    requires forall i :: 0 <= i < n ==> !IsSpace(s[i])
    requires n < |s| ==> IsSpace(s[n])
    ensures WordLength(s) == n
  {
    if n > 0 {
      WordLengthIs(s[1..], n - 1);
    }
  }

  // ----- string order -----

  /** Go's `<` on strings. */
  predicate Less(a: string, b: string) {
    b != [] && (a == [] || a[0] < b[0] || (a[0] == b[0] && Less(a[1..], b[1..])))
  }

  lemma {:induction false} LessIsTotal(a: string, b: string)
    ensures Less(a, b) || Less(b, a) || a == b
    ensures !(Less(a, b) && Less(b, a))
    ensures Less(a, b) ==> a != b
  {
    if a != [] && b != [] {
      LessIsTotal(a[1..], b[1..]);
      assert a == [a[0]] + a[1..] && b == [b[0]] + b[1..];
    }
  }

  lemma {:induction false} LessIsTransitive(a: string, b: string, c: string)
    requires Less(a, b) && Less(b, c)
    ensures Less(a, c)
  {
    if a != [] && a[0] == b[0] == c[0] {
      LessIsTransitive(a[1..], b[1..], c[1..]);
    }
  }
}
