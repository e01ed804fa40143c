/** The SPF lookup-budget counter (RFC 7208, sections 4.6.4 and 6.1): prober/spf_lookup.go. */
module SpfLookup {
  import opened Wrappers
  import opened Text
  import opened SpfRecord

  const MAX_LOOKUPS: nat := 10
  const MAX_DEPTH: nat := 20
  const OVER_BUDGET: nat := MAX_LOOKUPS + 1

  /** The injected resolver of include/redirect targets; it is arbitrary, but answers a name one way. */
  type Fetch = string -> Option<string>

  /** What identifies a target in the visited set. */
  function Key(target: string): string {
    ToLower(TrimSuffix(target, "."))
  }

  /** Does this mechanism ask for another record? */
  predicate Follows(m: Mechanism, hasAll: bool) {
    m.kind == Include || (m.kind == Redirect && !hasAll)
  }

  // ----- the bounded walk, as a function of the counter's state -----

  /** The counter's fields, and the targets it has asked `fetch` for, in order. */
  datatype Tally = Tally(count: nat, visited: set<string>, complete: bool, fetched: seq<string>) {
    predicate Over() { count > MAX_LOOKUPS }
  }

  const START: Tally := Tally(0, {}, true, [])

  /** One record's terms from a given state. `limit` is the depth guard. */
  ghost function Walk(fetch: Fetch, limit: nat, terms: seq<Mechanism>, hasAll: bool, depth: nat, t: Tally): (r: Tally)
    requires t.count <= OVER_BUDGET
    ensures t.count <= r.count <= OVER_BUDGET
    ensures r.complete ==> t.complete
    decreases OVER_BUDGET - t.count, 1, |terms|
  {
    if terms == [] || t.Over() then t
    else Walk(fetch, limit, terms[1..], hasAll, depth, Step(fetch, limit, terms[0], hasAll, depth, t))
  }

  ghost function Step(fetch: Fetch, limit: nat, m: Mechanism, hasAll: bool, depth: nat, t: Tally): (r: Tally)
    requires !t.Over()
    ensures t.count <= r.count <= OVER_BUDGET
    ensures r.complete ==> t.complete
    decreases OVER_BUDGET - t.count, 0, 0
  {
    var t1 := t.(count := t.count + 1);
    if m.kind in {A, MX, PTR, Exists} then t1
    else if Follows(m, hasAll) then
      if t1.Over() then t1 else Recurse(fetch, limit, m, depth, t1)
    else t
  }

  ghost function Recurse(fetch: Fetch, limit: nat, m: Mechanism, depth: nat, t: Tally): (r: Tally)
    requires !t.Over()
    ensures t.count <= r.count <= OVER_BUDGET
    ensures r.complete ==> t.complete
    decreases OVER_BUDGET - t.count, 2, 0
  {
    if m.hasMacro then t.(complete := false)
    else if Key(m.target) in t.visited || depth >= limit then t.(count := OVER_BUDGET, complete := false)
    else
      var t1 := t.(fetched := t.fetched + [m.target]);
      match fetch(m.target)
      case None => t1.(complete := false)
      case Some(rec) =>
        Walk(fetch, limit, Mechanisms(rec), HasAll(rec), depth + 1, t1.(visited := t.visited + {Key(m.target)}))
  }

  ghost function Verdict(fetch: Fetch, record: string): (r: Tally)
    ensures r.count <= OVER_BUDGET
  {
    Walk(fetch, MAX_DEPTH, Mechanisms(record), HasAll(record), 0, START)
  }

  /** A step, with the recursion into `Recurse` unfolded. */
  lemma StepUnfolds(fetch: Fetch, limit: nat, m: Mechanism, hasAll: bool, depth: nat, t: Tally)
    requires !t.Over()
    ensures
      var t1 := t.(count := t.count + 1);
      var t2 := t1.(fetched := t.fetched + [m.target]);
      Step(fetch, limit, m, hasAll, depth, t) ==
        if m.kind in {A, MX, PTR, Exists} then t1
        else if !Follows(m, hasAll) then t
        else if t1.Over() then t1
        else if m.hasMacro then t1.(complete := false)
        else if Key(m.target) in t.visited || depth >= limit then t1.(count := OVER_BUDGET, complete := false)
        else if fetch(m.target).None? then t2.(complete := false)
        else Walk(fetch, limit, Mechanisms(fetch(m.target).value), HasAll(fetch(m.target).value), depth + 1,
                  t2.(visited := t.visited + {Key(m.target)}))
  {
  }

  lemma RecurseUnfolds(fetch: Fetch, limit: nat, m: Mechanism, depth: nat, t: Tally, rec: string)
    requires !t.Over() && !m.hasMacro && Key(m.target) !in t.visited && depth < limit
    requires fetch(m.target) == Some(rec)
    ensures Recurse(fetch, limit, m, depth, t)
         == Walk(fetch, limit, Mechanisms(rec), HasAll(rec), depth + 1,
                 Tally(t.count, t.visited + {Key(m.target)}, t.complete, t.fetched + [m.target]))
  {
  }

  lemma WalkUnfolds(fetch: Fetch, limit: nat, terms: seq<Mechanism>, i: nat, hasAll: bool, depth: nat, t: Tally)
    requires i < |terms| && !t.Over()
    ensures Walk(fetch, limit, terms[i..], hasAll, depth, t)
         == Walk(fetch, limit, terms[i + 1..], hasAll, depth, Step(fetch, limit, terms[i], hasAll, depth, t))
  {
    assert terms[i..][1..] == terms[i + 1..];
  }

  // ----- the program -----

  class SpfCounter {
    const fetch: Fetch
    var count: nat
    var visited: set<string>
    var complete: bool
    ghost var fetched: seq<string>

    constructor (fetch: Fetch)
      ensures this.fetch == fetch && State() == START
    {
      this.fetch := fetch;
      count, visited, complete, fetched := 0, {}, true, [];
    }

    ghost function State(): Tally
      reads this
    {
      Tally(count, visited, complete, fetched)
    }

    predicate Over()
      reads this
    {
      count > MAX_LOOKUPS
    }

    method WalkRecord(record: string, depth: nat)
      requires count <= OVER_BUDGET
      modifies this
      ensures State() == Walk(fetch, MAX_DEPTH, Mechanisms(record), HasAll(record), depth, old(State()))
      decreases OVER_BUDGET - count, 1, 1
    {
      var mechs, hasAll := ParseSPFMechanisms(record);
      WalkTerms(mechs, hasAll, depth);
    }

    /** The loop of the walk. */
    method WalkTerms(mechs: seq<Mechanism>, hasAll: bool, depth: nat)
      requires count <= OVER_BUDGET
      modifies this
      ensures State() == Walk(fetch, MAX_DEPTH, mechs, hasAll, depth, old(State()))
      decreases OVER_BUDGET - count, 1, 0
    {
      ghost var goal := Walk(fetch, MAX_DEPTH, mechs, hasAll, depth, State());
      for i := 0 to |mechs|
        invariant old(count) <= count <= OVER_BUDGET
        invariant Walk(fetch, MAX_DEPTH, mechs[i..], hasAll, depth, State()) == goal
      {
        if Over() {
          return;
        }
        WalkUnfolds(fetch, MAX_DEPTH, mechs, i, hasAll, depth, State());
        WalkTerm(mechs[i], hasAll, depth);
      }
    }

    /** The body of that loop. */
    method WalkTerm(m: Mechanism, hasAll: bool, depth: nat)
      requires count <= MAX_LOOKUPS
      modifies this
      ensures State() == Step(fetch, MAX_DEPTH, m, hasAll, depth, old(State()))
      decreases OVER_BUDGET - count, 0, 0
    {
      match m.kind {
        case A | MX | PTR | Exists =>
          count := count + 1;
        case Include =>
          count := count + 1;
          if Over() {
            return;
          }
          RecurseInto(m, depth);
        case Redirect =>
          if hasAll {
            return;
          }
          count := count + 1;
          if Over() {
            return;
          }
          RecurseInto(m, depth);
        case All | Other =>
      }
    }

    method RecurseInto(m: Mechanism, depth: nat)
      requires count <= MAX_LOOKUPS
      modifies this
      ensures State() == Recurse(fetch, MAX_DEPTH, m, depth, old(State()))
      decreases OVER_BUDGET - count, 2, 0
    {
      if m.hasMacro {
        complete := false;
        return;
      }
      var key := Key(m.target);
      if key in visited || depth >= MAX_DEPTH {
        count := OVER_BUDGET;
        complete := false;
        return;
      }
      ghost var before := State();
      fetched := fetched + [m.target];
      var rec := fetch(m.target);
      if rec.None? {
        complete := false;
        return;
      }
      RecurseUnfolds(fetch, MAX_DEPTH, m, depth, before, rec.value);
      visited := visited + {key};
      WalkRecord(rec.value, depth + 1);
    }
  }

  method CountSPFLookups(record: string, fetch: Fetch) returns (count: nat, complete: bool)
    ensures count == Verdict(fetch, record).count && complete == Verdict(fetch, record).complete
    ensures count <= OVER_BUDGET
  {
    var c := new SpfCounter(fetch);
    c.WalkRecord(record, 0);
    if c.count > MAX_LOOKUPS {
      return MAX_LOOKUPS + 1, c.complete;
    }
    return c.count, c.complete;
  }

  // ----- the reference: the include/redirect tree without guards -----

  /**
   * Lookups in the tree under a record, with includes expanded `d` levels down. A target that
   * is a macro, does not resolve or lies below level `d` costs its own lookup only. The full
   * recursive count of RFC 7208 is the value this reaches as `d` grows, if it stops growing.
   */
  ghost function FullCount(fetch: Fetch, terms: seq<Mechanism>, hasAll: bool, d: nat): nat
    decreases d, 1, |terms|
  {
    if terms == [] then 0 else TermCount(fetch, terms[0], hasAll, d) + FullCount(fetch, terms[1..], hasAll, d)
  }

  ghost function TermCount(fetch: Fetch, m: Mechanism, hasAll: bool, d: nat): nat
    decreases d, 0, 0
  {
    if m.kind in {A, MX, PTR, Exists} then 1
    else if !Follows(m, hasAll) then 0
    else if m.hasMacro || d == 0 then 1
    else match fetch(m.target)
      case None => 1
      case Some(rec) => 1 + FullCount(fetch, Mechanisms(rec), HasAll(rec), d - 1)
  }

  /** The targets of that tree, in evaluation order, macros left out. */
  ghost function Targets(fetch: Fetch, terms: seq<Mechanism>, hasAll: bool, d: nat): seq<string>
    decreases d, 1, |terms|
  {
    if terms == [] then [] else TermTargets(fetch, terms[0], hasAll, d) + Targets(fetch, terms[1..], hasAll, d)
  }

  ghost function TermTargets(fetch: Fetch, m: Mechanism, hasAll: bool, d: nat): seq<string>
    decreases d, 0, 0
  {
    if !Follows(m, hasAll) || m.hasMacro then []
    else if d == 0 then [m.target]
    else match fetch(m.target)
      case None => [m.target]
      case Some(rec) => [m.target] + Targets(fetch, Mechanisms(rec), HasAll(rec), d - 1)
  }

  /** No target of the tree is a macro or fails to resolve. */
  ghost predicate Resolved(fetch: Fetch, terms: seq<Mechanism>, hasAll: bool, d: nat)
    decreases d, 1, |terms|
  {
    terms == [] || (TermResolved(fetch, terms[0], hasAll, d) && Resolved(fetch, terms[1..], hasAll, d))
  }

  ghost predicate TermResolved(fetch: Fetch, m: Mechanism, hasAll: bool, d: nat)
    decreases d, 0, 0
  {
    Follows(m, hasAll) ==>
      && !m.hasMacro
      && match fetch(m.target)
         case None => false
         case Some(rec) => d == 0 || Resolved(fetch, Mechanisms(rec), HasAll(rec), d - 1)
  }

  /** A target whose key an earlier, resolved target already has. */
  ghost predicate Repeats(fetch: Fetch, targets: seq<string>) {
    exists i, j :: 0 <= i < j < |targets| && Key(targets[i]) == Key(targets[j]) && fetch(targets[i]).Some?
  }

  /** The same, starting from keys already visited. */
  ghost predicate Clashes(fetch: Fetch, visited: set<string>, targets: seq<string>)
    decreases |targets|
  {
    targets != [] &&
    (Key(targets[0]) in visited || Clashes(fetch, Marked(fetch, visited, targets[0]), targets[1..]))
  }

  ghost function Marked(fetch: Fetch, visited: set<string>, target: string): set<string> {
    if fetch(target).Some? then visited + {Key(target)} else visited
  }

  ghost function AllMarked(fetch: Fetch, visited: set<string>, targets: seq<string>): set<string>
    decreases |targets|
  {
    if targets == [] then visited
    else AllMarked(fetch, Marked(fetch, visited, targets[0]), targets[1..])
  }

  lemma {:induction false} ClashesOfConcat(fetch: Fetch, visited: set<string>, a: seq<string>, b: seq<string>)
    ensures AllMarked(fetch, visited, a + b) == AllMarked(fetch, AllMarked(fetch, visited, a), b)
    ensures Clashes(fetch, visited, a + b)
       <==> Clashes(fetch, visited, a) || Clashes(fetch, AllMarked(fetch, visited, a), b)
    decreases |a|
  {
    if a == [] {
      assert a + b == b;
    } else {
      assert (a + b)[1..] == a[1..] + b;
      ClashesOfConcat(fetch, Marked(fetch, visited, a[0]), a[1..], b);
    }
  }

  lemma {:induction false} ClashesIsRepeats(fetch: Fetch, visited: set<string>, targets: seq<string>)
    ensures Clashes(fetch, visited, targets)
       <==> Repeats(fetch, targets) || exists j :: 0 <= j < |targets| && Key(targets[j]) in visited
    decreases |targets|
  {
    if targets != [] {
      var first, rest := targets[0], targets[1..];
      var visited' := Marked(fetch, visited, first);
      ClashesIsRepeats(fetch, visited', rest);
      if Repeats(fetch, rest) {
        var i, j :| 0 <= i < j < |rest| && Key(rest[i]) == Key(rest[j]) && fetch(rest[i]).Some?;
        assert targets[i + 1] == rest[i] && targets[j + 1] == rest[j];
      }
      if j :| 0 <= j < |rest| && Key(rest[j]) in visited' {
        assert targets[j + 1] == rest[j];
      }
      if j :| 0 <= j < |targets| && Key(targets[j]) in visited {
        assert j == 0 || targets[j] == rest[j - 1];
      }
      if i, j :| 0 <= i < j < |targets| && Key(targets[i]) == Key(targets[j]) && fetch(targets[i]).Some? {
        assert targets[j] == rest[j - 1];
        assert i == 0 || targets[i] == rest[i - 1];
      }
    }
  }

  // ----- the bounded walk meets the reference -----

  /** How a walk's end state answers for a piece of the tree: its size, targets and resolution. */
  ghost predicate Meets(fetch: Fetch, t: Tally, r: Tally, size: nat, targets: seq<string>, resolved: bool) {
    MeetsPiece(t, r, PieceOf(fetch, t.visited, size, targets, resolved))
  }

  ghost function PieceOf(fetch: Fetch, visited: set<string>, size: nat, targets: seq<string>, resolved: bool): Piece {
    Piece(size, targets, resolved, Clashes(fetch, visited, targets), AllMarked(fetch, visited, targets))
  }

  /** A piece of the tree as the walk sees it; `clash` and `marked` depend on the keys visited before. */
  datatype Piece = Piece(size: nat, targets: seq<string>, resolved: bool, clash: bool, marked: set<string>)

  predicate MeetsPiece(t: Tally, r: Tally, p: Piece) {
    && (!r.Over() <==> t.count + p.size <= MAX_LOOKUPS && !p.clash)
    && (!r.Over() ==>
          && r.count == t.count + p.size
          && r.visited == p.marked
          && r.fetched == t.fetched + p.targets
          && (r.complete <==> t.complete && p.resolved))
    && (r.Over() && r.complete ==> t.count + p.size > MAX_LOOKUPS)
  }

  lemma PiecesCompose(t: Tally, mid: Tally, r: Tally, p: Piece, p': Piece, both: Piece)
    requires MeetsPiece(t, mid, p)
    requires if mid.Over() then r == mid else MeetsPiece(mid, r, p')
    requires both.size == p.size + p'.size && both.targets == p.targets + p'.targets
    requires both.resolved <==> p.resolved && p'.resolved
    requires !mid.Over() ==> both.marked == p'.marked && (both.clash <==> p.clash || p'.clash)
    requires p.clash ==> both.clash
    ensures MeetsPiece(t, r, both)
  {
    assert t.fetched + (p.targets + p'.targets) == t.fetched + p.targets + p'.targets;
  }

  lemma MeetsCompose(fetch: Fetch, t: Tally, mid: Tally, r: Tally, size: nat, targets: seq<string>, resolved: bool,
                     size': nat, targets': seq<string>, resolved': bool)
    requires Meets(fetch, t, mid, size, targets, resolved)
    requires if mid.Over() then r == mid else Meets(fetch, mid, r, size', targets', resolved')
    ensures Meets(fetch, t, r, size + size', targets + targets', resolved && resolved')
  {
    var all := targets + targets';
    ClashesOfConcat(fetch, t.visited, targets, targets');
    PiecesCompose(
      t, mid, r,
      PieceOf(fetch, t.visited, size, targets, resolved),
      PieceOf(fetch, mid.visited, size', targets', resolved'),
      PieceOf(fetch, t.visited, size + size', all, resolved && resolved'));
  }

  /**
   * A walk with budget left against the tree under the same terms: every walk, and not only a
   * whole run, is decided by the tree's size and its repeated targets.
   */
  lemma {:induction false} WalkMeetsReference(
    fetch: Fetch, limit: nat, terms: seq<Mechanism>, hasAll: bool, depth: nat, t: Tally, d: nat)
    requires !t.Over()
    requires depth <= t.count && limit >= MAX_LOOKUPS && d + t.count >= MAX_LOOKUPS
    ensures Meets(
              fetch, t, Walk(fetch, limit, terms, hasAll, depth, t), FullCount(fetch, terms, hasAll, d),
              Targets(fetch, terms, hasAll, d), Resolved(fetch, terms, hasAll, d))
    decreases OVER_BUDGET - t.count, 1, |terms|
  {
    if terms != [] {
      var m, rest := terms[0], terms[1..];
      var mid := Step(fetch, limit, m, hasAll, depth, t);
      StepMeetsReference(fetch, limit, m, hasAll, depth, t, d);
      if !mid.Over() {
        WalkMeetsReference(fetch, limit, rest, hasAll, depth, mid, d);
      }
      MeetsCompose(
        fetch, t, mid, Walk(fetch, limit, rest, hasAll, depth, mid), TermCount(fetch, m, hasAll, d),
        TermTargets(fetch, m, hasAll, d), TermResolved(fetch, m, hasAll, d), FullCount(fetch, rest, hasAll, d),
        Targets(fetch, rest, hasAll, d), Resolved(fetch, rest, hasAll, d));
    }
  }

  lemma {:induction false} StepMeetsReference(
    fetch: Fetch, limit: nat, m: Mechanism, hasAll: bool, depth: nat, t: Tally, d: nat)
    requires !t.Over()
    requires depth <= t.count && limit >= MAX_LOOKUPS && d + t.count >= MAX_LOOKUPS
    ensures Meets(fetch, t, Step(fetch, limit, m, hasAll, depth, t),
                  TermCount(fetch, m, hasAll, d), TermTargets(fetch, m, hasAll, d), TermResolved(fetch, m, hasAll, d))
    decreases OVER_BUDGET - t.count, 0, 1
  {
    if Follows(m, hasAll) && !m.hasMacro && fetch(m.target).Some? && t.count < MAX_LOOKUPS {
      var rec := fetch(m.target).value;
      var t2 := Tally(t.count + 1, t.visited + {Key(m.target)}, t.complete, t.fetched + [m.target]);
      TermUnfolds(fetch, m, hasAll, d);
      StepIntoTarget(fetch, limit, m, hasAll, depth, t, rec, t2);
      var terms, all, r := Mechanisms(rec), HasAll(rec), Step(fetch, limit, m, hasAll, depth, t);
      if Key(m.target) in t.visited {
        RepeatedTargetMeets(fetch, t, m.target, FullCount(fetch, terms, all, d - 1), Targets(fetch, terms, all, d - 1),
                            Resolved(fetch, terms, all, d - 1));
      } else {
        IntoTargetMeetsReference(fetch, limit, m.target, terms, all, depth, t, d, t2, r);
      }
    } else if Follows(m, hasAll) {
      UnansweredMeetsReference(fetch, limit, m, hasAll, depth, t, d);
    }
  }

  /** An include or redirect that is not followed: a macro, an unanswered target, or the eleventh lookup. */
  lemma UnansweredMeetsReference(
    fetch: Fetch, limit: nat, m: Mechanism, hasAll: bool, depth: nat, t: Tally, d: nat)
    requires !t.Over() && Follows(m, hasAll)
    requires m.hasMacro || fetch(m.target).None? || t.count == MAX_LOOKUPS
    requires depth <= t.count && limit >= MAX_LOOKUPS && d + t.count >= MAX_LOOKUPS
    ensures Meets(fetch, t, Step(fetch, limit, m, hasAll, depth, t),
                  TermCount(fetch, m, hasAll, d), TermTargets(fetch, m, hasAll, d), TermResolved(fetch, m, hasAll, d))
  {
    StepUnfolds(fetch, limit, m, hasAll, depth, t);
    if !m.hasMacro && t.count < MAX_LOOKUPS {
      assert TermTargets(fetch, m, hasAll, d) == [m.target] + [];
      ClashesOfFirst(fetch, t.visited, m.target, []);
    }
  }

  lemma StepIntoTarget(
    fetch: Fetch, limit: nat, m: Mechanism, hasAll: bool, depth: nat, t: Tally, rec: string, t2: Tally)
    requires Follows(m, hasAll) && !m.hasMacro && fetch(m.target) == Some(rec) && t.count < MAX_LOOKUPS && depth < limit
    requires t2 == Tally(t.count + 1, t.visited + {Key(m.target)}, t.complete, t.fetched + [m.target])
    ensures Step(fetch, limit, m, hasAll, depth, t)
         == if Key(m.target) in t.visited then t.(count := OVER_BUDGET, complete := false)
            else Walk(fetch, limit, Mechanisms(rec), HasAll(rec), depth + 1, t2)
  {
    StepUnfolds(fetch, limit, m, hasAll, depth, t);
  }

  lemma TermUnfolds(fetch: Fetch, m: Mechanism, hasAll: bool, d: nat)
    requires Follows(m, hasAll) && !m.hasMacro && fetch(m.target).Some? && d > 0
    ensures
      var rec := fetch(m.target).value;
      && TermCount(fetch, m, hasAll, d) == 1 + FullCount(fetch, Mechanisms(rec), HasAll(rec), d - 1)
      && TermTargets(fetch, m, hasAll, d) == [m.target] + Targets(fetch, Mechanisms(rec), HasAll(rec), d - 1)
      && (TermResolved(fetch, m, hasAll, d) <==> Resolved(fetch, Mechanisms(rec), HasAll(rec), d - 1))
  {
  }

  /** The recursion into a target whose record has these terms; `r` is where the step ends. */
  lemma {:induction false} IntoTargetMeetsReference(
    fetch: Fetch, limit: nat, target: string, terms: seq<Mechanism>, hasAll: bool, depth: nat, t: Tally, d: nat,
    t2: Tally, r: Tally)
    requires fetch(target).Some? && t.count < MAX_LOOKUPS && d > 0 && Key(target) !in t.visited
    requires depth <= t.count && limit >= MAX_LOOKUPS && d + t.count >= MAX_LOOKUPS
    requires t2 == Tally(t.count + 1, t.visited + {Key(target)}, t.complete, t.fetched + [target])
    requires r == Walk(fetch, limit, terms, hasAll, depth + 1, t2)
    ensures Meets(fetch, t, r, 1 + FullCount(fetch, terms, hasAll, d - 1),
                  [target] + Targets(fetch, terms, hasAll, d - 1), Resolved(fetch, terms, hasAll, d - 1))
    decreases OVER_BUDGET - t.count, 0, 0
  {
    var size, sub, resolved :=
      FullCount(fetch, terms, hasAll, d - 1),
      Targets(fetch, terms, hasAll, d - 1),
      Resolved(fetch, terms, hasAll, d - 1);
    WalkMeetsReference(fetch, limit, terms, hasAll, depth + 1, t2, d - 1);
    FetchedTargetMeets(fetch, t, target, r, size, sub, resolved);
  }

  lemma ClashesOfFirst(fetch: Fetch, visited: set<string>, target: string, rest: seq<string>)
    ensures Clashes(fetch, visited, [target] + rest)
       <==> Key(target) in visited || Clashes(fetch, Marked(fetch, visited, target), rest)
    ensures AllMarked(fetch, visited, [target] + rest) == AllMarked(fetch, Marked(fetch, visited, target), rest)
  {
    assert ([target] + rest)[1..] == rest;
  }

  /** The walk that trips over a visited target, with any tree under it. */
  lemma RepeatedTargetMeets(fetch: Fetch, t: Tally, target: string, size: nat, sub: seq<string>, resolved: bool)
    requires Key(target) in t.visited
    ensures Meets(fetch, t, t.(count := OVER_BUDGET, complete := false), 1 + size, [target] + sub, resolved)
  {
    ClashesOfFirst(fetch, t.visited, target, sub);
  }

  /** The walk into a new target. */
  lemma FetchedTargetMeets(
    fetch: Fetch, t: Tally, target: string, r: Tally, size: nat, sub: seq<string>, resolved: bool)
    requires Key(target) !in t.visited && fetch(target).Some?
    requires
      var t2 := Tally(t.count + 1, t.visited + {Key(target)}, t.complete, t.fetched + [target]);
      Meets(fetch, t2, r, size, sub, resolved)
    ensures Meets(fetch, t, r, 1 + size, [target] + sub, resolved)
  {
    ClashesOfFirst(fetch, t.visited, target, sub);
    assert t.fetched + ([target] + sub) == t.fetched + [target] + sub;
  }

  /**
   * What the counter's verdict means, for every record, every resolver and every expansion depth
   * from ten on. Within budget it is the exact full count. It reads over budget exactly when the
   * full count is above ten or a resolved target is reached a second time; only the first can
   * happen with the completeness flag up.
   */
  lemma VerdictMeetsReference(fetch: Fetch, record: string, d: nat)
    requires d >= MAX_LOOKUPS
    ensures
      var r := Verdict(fetch, record);
      var terms, hasAll := Mechanisms(record), HasAll(record);
      && (r.count == OVER_BUDGET <==>
            || FullCount(fetch, terms, hasAll, d) > MAX_LOOKUPS
            || Repeats(fetch, Targets(fetch, terms, hasAll, d)))
      && (r.count <= MAX_LOOKUPS ==>
            && r.count == FullCount(fetch, terms, hasAll, d)
            && r.fetched == Targets(fetch, terms, hasAll, d)
            && (r.complete <==> Resolved(fetch, terms, hasAll, d)))
      && (r.count == OVER_BUDGET && r.complete ==> FullCount(fetch, terms, hasAll, d) > MAX_LOOKUPS)
  {
    WalkMeetsReference(fetch, MAX_DEPTH, Mechanisms(record), HasAll(record), 0, START, d);
    ClashesIsRepeats(fetch, {}, Targets(fetch, Mechanisms(record), HasAll(record), d));
  }

  /** The full recursive count above ten, as a limit: some finite part of the tree is that big. */
  ghost predicate ExceedsBudget(fetch: Fetch, record: string) {
    exists d: nat :: FullCount(fetch, Mechanisms(record), HasAll(record), d) > MAX_LOOKUPS
  }

  lemma {:induction false} FullCountGrows(fetch: Fetch, terms: seq<Mechanism>, hasAll: bool, d: nat, d': nat)
    requires d <= d'
    ensures FullCount(fetch, terms, hasAll, d) <= FullCount(fetch, terms, hasAll, d')
    decreases d, |terms|
  {
    if terms != [] {
      var m := terms[0];
      if d > 0 && fetch(m.target).Some? {
        var rec := fetch(m.target).value;
        FullCountGrows(fetch, Mechanisms(rec), HasAll(rec), d - 1, d' - 1);
      }
      FullCountGrows(fetch, terms[1..], hasAll, d, d');
    }
  }

  /**
   * The counter reports "over budget" for exactly the records that exceed the budget and those
   * that reach a resolved target twice. A record caught in an include cycle is among the first:
   * its tree never ends, so the repeated-target rule decides only trees that do fit.
   */
  lemma OverBudgetIff(fetch: Fetch, record: string)
    ensures Verdict(fetch, record).count == OVER_BUDGET
       <==> || ExceedsBudget(fetch, record)
            || Repeats(fetch, Targets(fetch, Mechanisms(record), HasAll(record), MAX_LOOKUPS))
  {
    var terms, hasAll := Mechanisms(record), HasAll(record);
    VerdictMeetsReference(fetch, record, MAX_LOOKUPS);
    if ExceedsBudget(fetch, record) {
      var d: nat :| FullCount(fetch, terms, hasAll, d) > MAX_LOOKUPS;
      FullCountGrows(fetch, terms, hasAll, d, d + MAX_LOOKUPS);
      VerdictMeetsReference(fetch, record, d + MAX_LOOKUPS);
    }
  }

  // ----- bounds of the walk, for every resolver -----

  /** No more fetches than lookups or than ten, and none for a key an earlier fetch resolved. */
  ghost predicate Bounded(fetch: Fetch, t: Tally) {
    && |t.fetched| <= t.count
    && |t.fetched| <= MAX_LOOKUPS
    && !Repeats(fetch, t.fetched)
    && forall x <- t.fetched :: fetch(x).Some? ==> Key(x) in t.visited
  }

  lemma FetchKeepsBounds(fetch: Fetch, t: Tally, target: string)
    requires Bounded(fetch, t) && |t.fetched| < t.count <= MAX_LOOKUPS && Key(target) !in t.visited
    ensures Bounded(fetch, t.(fetched := t.fetched + [target], visited := Marked(fetch, t.visited, target)))
  {
  }

  lemma {:induction false} WalkKeepsBounds(
    fetch: Fetch, limit: nat, terms: seq<Mechanism>, hasAll: bool, depth: nat, t: Tally)
    requires t.count <= OVER_BUDGET && Bounded(fetch, t)
    ensures Bounded(fetch, Walk(fetch, limit, terms, hasAll, depth, t))
    decreases OVER_BUDGET - t.count, |terms|
  {
    if terms != [] && !t.Over() {
      var m := terms[0];
      StepUnfolds(fetch, limit, m, hasAll, depth, t);
      if Follows(m, hasAll) && !m.hasMacro && t.count < MAX_LOOKUPS && depth < limit && Key(m.target) !in t.visited {
        var t1 := t.(count := t.count + 1);
        FetchKeepsBounds(fetch, t1, m.target);
        if fetch(m.target).Some? {
          var rec := fetch(m.target).value;
          var t2 := t1.(fetched := t.fetched + [m.target], visited := t.visited + {Key(m.target)});
          WalkKeepsBounds(fetch, limit, Mechanisms(rec), HasAll(rec), depth + 1, t2);
        }
      }
      WalkKeepsBounds(fetch, limit, terms[1..], hasAll, depth, Step(fetch, limit, m, hasAll, depth, t));
    }
  }

  /** At most ten fetches in a run, and no resolved target is fetched again under the same key. */
  lemma FetchesAreBounded(fetch: Fetch, record: string)
    ensures |Verdict(fetch, record).fetched| <= MAX_LOOKUPS
    ensures !Repeats(fetch, Verdict(fetch, record).fetched)
  {
    WalkKeepsBounds(fetch, MAX_DEPTH, Mechanisms(record), HasAll(record), 0, START);
  }

  /** The depth guard cannot fire: any guard of ten or more gives the same walk. */
  lemma {:induction false} DepthGuardIsIdle(
    fetch: Fetch, limit: nat, limit': nat, terms: seq<Mechanism>, hasAll: bool, depth: nat, t: Tally)
    requires t.count <= OVER_BUDGET && depth <= t.count
    requires limit >= MAX_LOOKUPS && limit' >= MAX_LOOKUPS
    ensures Walk(fetch, limit, terms, hasAll, depth, t) == Walk(fetch, limit', terms, hasAll, depth, t)
    decreases OVER_BUDGET - t.count, 1, |terms|
  {
    if terms != [] && !t.Over() {
      StepIgnoresGuard(fetch, limit, limit', terms[0], hasAll, depth, t);
      DepthGuardIsIdle(fetch, limit, limit', terms[1..], hasAll, depth, Step(fetch, limit, terms[0], hasAll, depth, t));
    }
  }

  lemma {:induction false} StepIgnoresGuard(
    fetch: Fetch, limit: nat, limit': nat, m: Mechanism, hasAll: bool, depth: nat, t: Tally)
    requires !t.Over() && depth <= t.count
    requires limit >= MAX_LOOKUPS && limit' >= MAX_LOOKUPS
    ensures Step(fetch, limit, m, hasAll, depth, t) == Step(fetch, limit', m, hasAll, depth, t)
    decreases OVER_BUDGET - t.count, 0, 0
  {
    if Follows(m, hasAll) && !m.hasMacro && t.count < MAX_LOOKUPS && fetch(m.target).Some? {
      var rec := fetch(m.target).value;
      var t2 := Tally(t.count + 1, t.visited + {Key(m.target)}, t.complete, t.fetched + [m.target]);
      StepIntoTarget(fetch, limit, m, hasAll, depth, t, rec, t2);
      StepIntoTarget(fetch, limit', m, hasAll, depth, t, rec, t2);
      DepthGuardIsIdle(fetch, limit, limit', Mechanisms(rec), HasAll(rec), depth + 1, t2);
    } else {
      StepWithoutWalk(fetch, limit, limit', m, hasAll, depth, t);
    }
  }

  lemma StepWithoutWalk(fetch: Fetch, limit: nat, limit': nat, m: Mechanism, hasAll: bool, depth: nat, t: Tally)
    requires !t.Over() && depth <= t.count && limit >= MAX_LOOKUPS && limit' >= MAX_LOOKUPS
    requires !(Follows(m, hasAll) && !m.hasMacro && t.count < MAX_LOOKUPS && fetch(m.target).Some?)
    ensures Step(fetch, limit, m, hasAll, depth, t) == Step(fetch, limit', m, hasAll, depth, t)
  {
    StepUnfolds(fetch, limit, m, hasAll, depth, t);
    StepUnfolds(fetch, limit', m, hasAll, depth, t);
  }

  // ----- two runs against different resolvers -----

  /** `g` answers everything `f` answers, and answers it the same way. */
  ghost predicate Extends(g: Fetch, f: Fetch) {
    forall x :: f(x).Some? ==> g(x) == f(x)
  }

  ghost predicate Behind(t: Tally, u: Tally) {
    t.count <= u.count && (!u.Over() ==> t.visited <= u.visited)
  }

  lemma {:induction false} WalkIsMonotone(
    f: Fetch, g: Fetch, limit: nat, terms: seq<Mechanism>, hasAll: bool, depth: nat, t: Tally, u: Tally)
    requires Extends(g, f)
    requires t.count <= OVER_BUDGET && u.count <= OVER_BUDGET && Behind(t, u)
    ensures Behind(Walk(f, limit, terms, hasAll, depth, t), Walk(g, limit, terms, hasAll, depth, u))
    decreases OVER_BUDGET - t.count, 1, |terms|
  {
    if terms != [] && !u.Over() {
      var m := terms[0];
      StepIsMonotone(f, g, limit, m, hasAll, depth, t, u);
      WalkIsMonotone(f, g, limit, terms[1..], hasAll, depth,
                     Step(f, limit, m, hasAll, depth, t), Step(g, limit, m, hasAll, depth, u));
    }
  }

  lemma {:induction false} StepIsMonotone(
    f: Fetch, g: Fetch, limit: nat, m: Mechanism, hasAll: bool, depth: nat, t: Tally, u: Tally)
    requires Extends(g, f)
    requires !u.Over() && Behind(t, u)
    ensures Behind(Step(f, limit, m, hasAll, depth, t), Step(g, limit, m, hasAll, depth, u))
    decreases OVER_BUDGET - t.count, 0, 0
  {
    if Follows(m, hasAll) && u.count < MAX_LOOKUPS && !m.hasMacro && Key(m.target) !in u.visited && depth < limit {
      var key := {Key(m.target)};
      var t1 := Tally(t.count + 1, t.visited + key, t.complete, t.fetched + [m.target]);
      var u1 := Tally(u.count + 1, u.visited + key, u.complete, u.fetched + [m.target]);
      match f(m.target)
      case Some(rec) =>
        StepIntoTarget(f, limit, m, hasAll, depth, t, rec, t1);
        StepIntoTarget(g, limit, m, hasAll, depth, u, rec, u1);
        WalkIsMonotone(f, g, limit, Mechanisms(rec), HasAll(rec), depth + 1, t1, u1);
      case None =>
        WalkOnlyAdds(g, limit, m, hasAll, depth, u);
    }
  }

  /** A step never forgets a visited key. */
  lemma WalkOnlyAdds(fetch: Fetch, limit: nat, m: Mechanism, hasAll: bool, depth: nat, t: Tally)
    requires !t.Over()
    ensures t.visited <= Step(fetch, limit, m, hasAll, depth, t).visited
  {
    StepUnfolds(fetch, limit, m, hasAll, depth, t);
    if Follows(m, hasAll) && !m.hasMacro && fetch(m.target).Some? {
      var rec := fetch(m.target).value;
      if t.count < MAX_LOOKUPS {
        var t1 := Tally(t.count + 1, t.visited + {Key(m.target)}, t.complete, t.fetched + [m.target]);
        VisitedGrows(fetch, limit, Mechanisms(rec), HasAll(rec), depth + 1, t1);
      }
    }
  }

  lemma {:induction false} VisitedGrows(
    fetch: Fetch, limit: nat, terms: seq<Mechanism>, hasAll: bool, depth: nat, t: Tally)
    requires t.count <= OVER_BUDGET
    ensures t.visited <= Walk(fetch, limit, terms, hasAll, depth, t).visited
    decreases OVER_BUDGET - t.count, |terms|
  {
    if terms != [] && !t.Over() {
      var m := terms[0];
      StepUnfolds(fetch, limit, m, hasAll, depth, t);
      if Follows(m, hasAll) && !m.hasMacro && fetch(m.target).Some? && t.count < MAX_LOOKUPS {
        var rec := fetch(m.target).value;
        var t1 := Tally(t.count + 1, t.visited + {Key(m.target)}, t.complete, t.fetched + [m.target]);
        VisitedGrows(fetch, limit, Mechanisms(rec), HasAll(rec), depth + 1, t1);
      }
      VisitedGrows(fetch, limit, terms[1..], hasAll, depth, Step(fetch, limit, m, hasAll, depth, t));
    }
  }

  /** A complete run never noticed what its resolver could not answer. */
  lemma {:induction false} CompleteWalkIsStable(
    f: Fetch, g: Fetch, limit: nat, terms: seq<Mechanism>, hasAll: bool, depth: nat, t: Tally)
    requires Extends(g, f) && t.count <= OVER_BUDGET
    requires Walk(f, limit, terms, hasAll, depth, t).complete
    ensures Walk(g, limit, terms, hasAll, depth, t) == Walk(f, limit, terms, hasAll, depth, t)
    decreases OVER_BUDGET - t.count, 1, |terms|
  {
    if terms != [] && !t.Over() {
      var t' := Step(f, limit, terms[0], hasAll, depth, t);
      assert t'.complete;
      CompleteStepIsStable(f, g, limit, terms[0], hasAll, depth, t);
      CompleteWalkIsStable(f, g, limit, terms[1..], hasAll, depth, t');
    }
  }

  lemma {:induction false} CompleteStepIsStable(
    f: Fetch, g: Fetch, limit: nat, m: Mechanism, hasAll: bool, depth: nat, t: Tally)
    requires Extends(g, f) && !t.Over() && Step(f, limit, m, hasAll, depth, t).complete
    ensures Step(g, limit, m, hasAll, depth, t) == Step(f, limit, m, hasAll, depth, t)
    decreases OVER_BUDGET - t.count, 0, 0
  {
    StepUnfolds(f, limit, m, hasAll, depth, t);
    if Follows(m, hasAll) && t.count < MAX_LOOKUPS {
      var rec := f(m.target).value;
      var t2 := Tally(t.count + 1, t.visited + {Key(m.target)}, t.complete, t.fetched + [m.target]);
      StepIntoTarget(f, limit, m, hasAll, depth, t, rec, t2);
      StepIntoTarget(g, limit, m, hasAll, depth, t, rec, t2);
      CompleteWalkIsStable(f, g, limit, Mechanisms(rec), HasAll(rec), depth + 1, t2);
    } else {
      StepUnfolds(g, limit, m, hasAll, depth, t);
    }
  }

  /**
   * Answers can only raise the count, and a run that was complete does not change at all. So an
   * unreachable include never produces an over-budget verdict that its answer would withdraw.
   */
  lemma CounterIsMonotone(f: Fetch, g: Fetch, record: string)
    requires Extends(g, f)
    ensures Verdict(f, record).count <= Verdict(g, record).count
    ensures Verdict(f, record).complete ==> Verdict(g, record) == Verdict(f, record)
  {
    var terms, hasAll := Mechanisms(record), HasAll(record);
    WalkIsMonotone(f, g, MAX_DEPTH, terms, hasAll, 0, START, START);
    if Verdict(f, record).complete {
      CompleteWalkIsStable(f, g, MAX_DEPTH, terms, hasAll, 0, START);
    }
  }
}
