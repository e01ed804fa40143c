/** Orders and permutations of sequences. */
module Sequences {
  ghost predicate NoRepeats<T(!new)>(s: seq<T>) {
    forall i, j :: 0 <= i < j < |s| ==> s[i] != s[j]
  }

  lemma NoRepeatsSnoc<T(!new)>(s: seq<T>, x: T)
    requires NoRepeats(s) && x !in s
    ensures NoRepeats(s + [x])
  {
  }

  lemma LastIsNew<T(!new)>(init: seq<T>, last: T)
    requires NoRepeats(init + [last])
    ensures NoRepeats(init) && last !in init
  {
    var all := init + [last];
    assert all[|init|] == last;
    forall i, j | 0 <= i < j < |init| ensures init[i] != init[j] {
      assert all[i] == init[i] && all[j] == init[j];
    }
    forall i | 0 <= i < |init| ensures init[i] != last {
      assert all[i] == init[i];
    }
  }

  lemma MultisetOfRest<T>(s: seq<T>, i: nat)
    requires i < |s|
    ensures multiset(s[..i] + s[i + 1..]) == multiset(s) - multiset{s[i]}
  {
    assert s == s[..i] + [s[i]] + s[i + 1..];
  }

  /** Where the last element of a sequence sits in a permutation of it. */
  lemma FindInPermutation<T>(a: seq<T>, b: seq<T>) returns (i: nat)
    requires a != [] && multiset(a) == multiset(b)
    ensures i < |b| && b[i] == a[|a| - 1]
    ensures multiset(a[..|a| - 1]) == multiset(b[..i] + b[i + 1..])
  {
    var n := |a| - 1;
    assert a[n] in multiset(b);
    i :| 0 <= i < |b| && b[i] == a[n];
    MultisetOfRest(a, n);
    assert a[..n] + a[n + 1..] == a[..n];
    MultisetOfRest(b, i);
  }

  /** The same, as what stands before and after it. */
  lemma SplitPermutation<T>(init: seq<T>, last: T, b: seq<T>) returns (front: seq<T>, back: seq<T>)
    requires multiset(init + [last]) == multiset(b)
    ensures b == front + [last] + back && multiset(init) == multiset(front + back)
  {
    var a := init + [last];
    var i := FindInPermutation(a, b);
    assert a[..|a| - 1] == init;
    front, back := b[..i], b[i + 1..];
    assert b == front + [last] + back;
  }

  lemma {:induction false} MultiplicityOfNoRepeats<T(!new)>(s: seq<T>, x: T)
    requires NoRepeats(s)
    ensures multiset(s)[x] == if x in s then 1 else 0
  {
    if s != [] {
      var init, last := s[..|s| - 1], s[|s| - 1];
      assert s == init + [last];
      MultiplicityOfNoRepeats(init, x);
    }
  }

  /** Sequences without repetitions and with the same elements are permutations of each other. */
  lemma SameElementsPermute<T(!new)>(a: seq<T>, b: seq<T>)
    requires NoRepeats(a) && NoRepeats(b)
    requires forall x :: x in a <==> x in b
    ensures multiset(a) == multiset(b)
  {
    forall x ensures multiset(a)[x] == multiset(b)[x] {
      MultiplicityOfNoRepeats(a, x);
      MultiplicityOfNoRepeats(b, x);
    }
  }

  lemma ConcatIsAssociative<T>(a: seq<T>, b: seq<T>, c: seq<T>)
    ensures a + (b + c) == a + b + c
  {
  }

  // ----- positions -----

  ghost predicate Increasing(at: seq<nat>) {
    forall i, j :: 0 <= i < j < |at| ==> at[i] < at[j]
  }

  lemma IncreasingSnoc(at: seq<nat>, n: nat)
    requires Increasing(at) && forall k <- at :: k < n
    ensures Increasing(at + [n])
  {
    assert forall i :: 0 <= i < |at| ==> at[i] in at;
  }

  /** There are as many positions as the sequence of them is long. */
  lemma {:induction false} SizeOfPositions(at: seq<nat>, positions: set<nat>)
    requires Increasing(at) && forall k :: k in at <==> k in positions
    ensures |positions| == |at|
    decreases |at|
  {
    if at == [] {
      assert positions == {};
    } else {
      var init, last := at[..|at| - 1], at[|at| - 1];
      assert at == init + [last];
      assert last !in init;
      SizeOfPositions(init, positions - {last});
    }
  }
}
