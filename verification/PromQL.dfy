/** The PromQL subset the status rows are written in, with its meaning on one metric store. */
module PromQL {
  import opened Wrappers

  const NAME: string := "__name__"

  /** A series' labels, the metric name among them. */
  type Labels = map<string, string>

  /** An instant vector; a metric store is one, too. */
  type Vector = map<Labels, real>

  datatype Matcher = Matcher(name: string, value: string)

  datatype Op = Add | Sub | Mul | EqBool

  datatype Cmp = Eq | Ge | Gt

  /** Which labels two samples must agree on: all but the name, or the listed ones. */
  datatype Matching = AllLabels | On(labels: seq<string>)

  datatype Expr =
    | Select(metric: string, matchers: seq<Matcher>)
    | Const(c: nat)
    | Max(e: Expr)
    | ClampMax(e: Expr, c: nat)
    | Absent(metric: string, matchers: seq<Matcher>)
    | Or(l: Expr, matching: Matching, r: Expr)
    | Scalar(c: nat, op: Op, e: Expr)
    | Binary(l: Expr, op: Op, matching: Matching, r: Expr)
    | Test(e: Expr, cmp: Cmp, c: nat)
    | Paren(e: Expr)

  const NO_LABELS: Labels := map[]

  // ----- selection -----

  function LabelValue(labels: Labels, name: string): string {
    if name in labels then labels[name] else ""
  }

  predicate Selected(labels: Labels, metric: string, matchers: seq<Matcher>) {
    && LabelValue(labels, NAME) == metric
    && forall m <- matchers :: LabelValue(labels, m.name) == m.value
  }

  function Selection(store: Vector, metric: string, matchers: seq<Matcher>): Vector {
    map l | l in store && Selected(l, metric, matchers) :: store[l]
  }

  /** The labels `absent` invents: those matched exactly once. */
  function AbsentLabels(matchers: seq<Matcher>): Labels {
    map m <- Once(matchers) :: m.name := m.value
  }

  function Once(matchers: seq<Matcher>): set<Matcher> {
    set i | 0 <= i < |matchers| && forall j :: 0 <= j < |matchers| && j != i ==> matchers[j].name != matchers[i].name
      :: matchers[i]
  }

  // ----- aggregation -----

  ghost predicate IsMax(v: Vector, m: real) {
    (exists l :: l in v && v[l] == m) && forall l :: l in v ==> v[l] <= m
  }

  lemma {:induction false} MaxExists(v: Vector)
    requires v != map[]
    ensures exists m :: IsMax(v, m)
    decreases |v|
  {
    var l :| l in v;
    var rest := v - {l};
    assert forall k :: k in v ==> k == l || (k in rest && rest[k] == v[k]);
    if rest == map[] {
      assert v.Keys - {l} == {};
      assert IsMax(v, v[l]);
    } else {
      assert rest.Keys == v.Keys - {l};
      assert |rest.Keys| < |v.Keys|;
      MaxExists(rest);
      var m :| IsMax(rest, m);
      assert IsMax(v, if m < v[l] then v[l] else m);
    }
  }

  ghost function MaxOf(v: Vector): (m: real)
    requires v != map[]
    ensures IsMax(v, m)
  {
    MaxExists(v);
    var m :| IsMax(v, m);
    m
  }

  // ----- sample arithmetic -----

  function Apply(op: Op, x: real, y: real): real {
    match op
    case Add => x + y
    case Sub => x - y
    case Mul => x * y
    case EqBool => if x == y then 1.0 else 0.0
  }

  function Compare(cmp: Cmp, x: real, y: real): real {
    var holds := match cmp case Eq => x == y case Ge => x >= y case Gt => x > y;
    if holds then 1.0 else 0.0
  }

  /** What an expression with one vector operand does to each sample. */
  datatype Fn = Clamp(max: real) | With(c: real, op: Op) | Against(cmp: Cmp, c: real)

  function Run(fn: Fn, x: real): real {
    match fn
    case Clamp(max) => if x < max then x else max
    case With(c, op) => Apply(op, c, x)
    case Against(cmp, c) => Compare(cmp, x, c)
  }

  function Signature(m: Matching, labels: Labels): Labels {
    match m
    case AllLabels => labels - {NAME}
    case On(names) => map n | n in names && n in labels :: labels[n]
  }

  // ----- vector operations -----

  ghost predicate Unique(v: Vector, m: Matching) {
    forall a, b :: a in v && b in v && Signature(m, a) == Signature(m, b) ==> a == b
  }

  ghost predicate HasSignature(v: Vector, m: Matching, k: Labels) {
    exists a :: a in v && Signature(m, a) == k
  }

  function Signatures(v: Vector, m: Matching): set<Labels> {
    set a | a in v :: Signature(m, a)
  }

  /** The sample with a given signature. */
  ghost function SampleAt(v: Vector, m: Matching, k: Labels): real
    requires HasSignature(v, m, k)
  {
    var a :| a in v && Signature(m, a) == k;
    v[a]
  }

  /** Arithmetic on one vector: the metric name goes; two samples left with equal labels are an error. */
  ghost function MapSamples(v: Vector, fn: Fn): Option<Vector> {
    if !Unique(v, AllLabels) then None
    else
      Some(map k | k in Signatures(v, AllLabels) && HasSignature(v, AllLabels, k)
        :: Run(fn, SampleAt(v, AllLabels, k)))
  }

  /** Samples of `l`, and those of `r` that match none of `l`. */
  ghost function Union(l: Vector, m: Matching, r: Vector): Vector {
    l + (map k | k in r && !HasSignature(l, m, Signature(m, k)) :: r[k])
  }

  /** The samples of `l` that find a partner in `r`. */
  ghost function Partnered(l: Vector, m: Matching, r: Vector): Vector {
    map a | a in l && HasSignature(r, m, Signature(m, a)) :: l[a]
  }

  /**
   * One-to-one matching. An empty side gives an empty result; otherwise repeated signatures on
   * the right, or among the matched samples of the left, are an error.
   */
  ghost function MatchSamples(l: Vector, op: Op, m: Matching, r: Vector): Option<Vector> {
    var left := Partnered(l, m, r);
    if l == map[] || r == map[] then Some(map[])
    else if !Unique(r, m) || !Unique(left, m) then None
    else Some(Combined(left, op, m, r))
  }

  ghost function Combined(l: Vector, op: Op, m: Matching, r: Vector): Vector {
    map k | k in Signatures(l, m) && HasSignature(l, m, k) && HasSignature(r, m, k)
      :: Apply(op, SampleAt(l, m, k), SampleAt(r, m, k))
  }

  ghost function Reduced(v: Vector): Vector {
    if v == map[] then map[] else map[NO_LABELS := MaxOf(v)]
  }

  /** The value of a query on a store; None is a query error. */
  ghost function Eval(store: Vector, e: Expr): Option<Vector> {
    match e
    case Select(metric, matchers) => Some(Selection(store, metric, matchers))
    case Const(c) => Some(map[NO_LABELS := c as real])
    case Max(e') => if Eval(store, e').None? then None else Some(Reduced(Eval(store, e').value))
    case ClampMax(e', c) => if Eval(store, e').None? then None else MapSamples(Eval(store, e').value, Clamp(c as real))
    case Absent(metric, matchers) =>
      Some(if Selection(store, metric, matchers) == map[] then map[AbsentLabels(matchers) := 1.0] else map[])
    case Or(l, m, r) =>
      if Eval(store, l).None? || Eval(store, r).None? then None
      else Some(Union(Eval(store, l).value, m, Eval(store, r).value))
    case Scalar(c, op, e') =>
      if Eval(store, e').None? then None else MapSamples(Eval(store, e').value, With(c as real, op))
    case Binary(l, op, m, r) =>
      if Eval(store, l).None? || Eval(store, r).None? then None
      else MatchSamples(Eval(store, l).value, op, m, Eval(store, r).value)
    case Test(e', cmp, c) =>
      if Eval(store, e').None? then None else MapSamples(Eval(store, e').value, Against(cmp, c as real))
    case Paren(e') => Eval(store, e')
  }

  // ----- one-sample vectors -----

  lemma MapNone(fn: Fn)
    ensures MapSamples(map[], fn) == Some(map[])
  {
    assert MapSamples(map[], fn).value == map[];
  }

  lemma MapOne(k: Labels, x: real, fn: Fn)
    ensures MapSamples(map[k := x], fn) == Some(map[k - {NAME} := Run(fn, x)])
  {
    var v: Vector := map[k := x];
    assert HasSignature(v, AllLabels, Signature(AllLabels, k));
    assert Signatures(v, AllLabels) == {k - {NAME}};
    assert SampleAt(v, AllLabels, k - {NAME}) == x;
    assert Unique(v, AllLabels);
    var out := MapSamples(v, fn).value;
    assert out == map[k - {NAME} := Run(fn, x)];
  }

  lemma MatchOne(k: Labels, x: real, op: Op, m: Matching, k': Labels, y: real)
    requires Signature(m, k) == Signature(m, k')
    ensures MatchSamples(map[k := x], op, m, map[k' := y]) == Some(map[Signature(m, k) := Apply(op, x, y)])
  {
    var l: Vector, r: Vector := map[k := x], map[k' := y];
    var s := Signature(m, k);
    OnlySample(k, x, m);
    OnlySample(k', y, m);
    assert k in Partnered(l, m, r);
    assert Partnered(l, m, r) == l;
    CombineOne(l, op, m, r, s);
  }

  lemma CombineOne(l: Vector, op: Op, m: Matching, r: Vector, s: Labels)
    requires Signatures(l, m) == {s} && HasSignature(l, m, s) && HasSignature(r, m, s)
    ensures Combined(l, op, m, r) == map[s := Apply(op, SampleAt(l, m, s), SampleAt(r, m, s))]
  {
  }

  lemma OnlySample(k: Labels, x: real, m: Matching)
    ensures
      var v: Vector := map[k := x];
      && v != map[] && Unique(v, m) && Signatures(v, m) == {Signature(m, k)}
      && HasSignature(v, m, Signature(m, k)) && SampleAt(v, m, Signature(m, k)) == x
  {
    var v: Vector := map[k := x];
    assert k in v;
    assert HasSignature(v, m, Signature(m, k));
  }

  lemma UnionShadowed(l: Vector, m: Matching, r: Vector)
    requires forall k :: k in r ==> HasSignature(l, m, Signature(m, k))
    ensures Union(l, m, r) == l
  {
  }

  lemma UnionOfEmpty(m: Matching, r: Vector)
    ensures Union(map[], m, r) == r
  {
  }
}
