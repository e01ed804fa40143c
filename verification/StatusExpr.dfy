/** The four-state status expressions: demo/dashboard/panels_status.go. */
module StatusExpr {
  import opened Wrappers
  import opened PromQL

  /** A row's predicates; an empty string in the source is None. */
  datatype Check = Check(expr: Expr, na: Option<Expr>, warn: Option<Expr>)

  // ----- the builders -----

  function Scalarize(p: Expr): Expr {
    Paren(Or(ClampMax(Max(p), 1), AllLabels, Const(0)))
  }

  function ScalarizeOr0(p: Option<Expr>): Expr {
    if p.Some? then Scalarize(p.value) else Const(0)
  }

  /** The arithmetic of `Compose`, over three reduced predicates. */
  function Skeleton(h: Expr, n: Expr, w: Expr): Expr {
    Binary(
      Paren(Scalar(2, Mul, n)),
      Add, AllLabels,
      Paren(Binary(
        Binary(Paren(Scalar(1, Sub, n)), Mul, AllLabels, h),
        Mul, AllLabels,
        Paren(Scalar(1, Add, Paren(Scalar(2, Mul, w)))))))
  }

  function Compose(c: Check): Expr {
    if c.na.None? && c.warn.None? then c.expr
    else
      Skeleton(Scalarize(c.expr), ScalarizeOr0(c.na), ScalarizeOr0(c.warn))
  }

  // ----- their text -----

  function Digit(c: nat): string {
    [('0' as int + c % 10) as char]
  }

  function Number(c: nat): string {
    if c < 10 then Digit(c) else Number(c / 10) + Digit(c)
  }

  function OpText(op: Op): string {
    match op
    case Add => " + "
    case Sub => " - "
    case Mul => " * "
    case EqBool => " == bool "
  }

  function CmpText(cmp: Cmp): string {
    match cmp
    case Eq => " == bool "
    case Ge => " >= bool "
    case Gt => " > bool "
  }

  function Commas(names: seq<string>): string {
    if names == [] then "" else if |names| == 1 then names[0] else names[0] + "," + Commas(names[1..])
  }

  function OnText(m: Matching): string {
    if m.AllLabels? then "" else "on(" + Commas(m.labels) + ") "
  }

  function MatcherText(m: Matcher): string {
    m.name + "=\"" + m.value + "\""
  }

  function MatchersText(ms: seq<Matcher>): string {
    if ms == [] then "" else if |ms| == 1 then MatcherText(ms[0]) else MatcherText(ms[0]) + "," + MatchersText(ms[1..])
  }

  /** How an expression is written. Grouping shows only where the expression has a `Paren`. */
  function Text(e: Expr): string {
    match e
    case Select(metric, ms) => metric + "{" + MatchersText(ms) + "}"
    case Const(c) => "vector(" + Number(c) + ")"
    case Max(e) => "max(" + Text(e) + ")"
    case ClampMax(e, c) => "clamp_max(" + Text(e) + ", " + Number(c) + ")"
    case Absent(metric, ms) => "absent(" + (metric + "{" + MatchersText(ms) + "}") + ")"
    case Or(l, m, r) => Text(l) + (" or " + OnText(m)) + Text(r)
    case Scalar(c, op, e) => Number(c) + OpText(op) + Text(e)
    case Binary(l, op, m, r) => Text(l) + (OpText(op) + OnText(m)) + Text(r)
    case Test(e, cmp, c) => Text(e) + CmpText(cmp) + Number(c)
    case Paren(e) => "(" + Text(e) + ")"
  }

  /** `scalarizeStatusPredicate`, on text. */
  function ScalarizeText(p: string): string {
    "(clamp_max(max(" + p + "), 1) or vector(0))"
  }

  /** `composeStatusExpr`, on text. */
  function ComposeText(expr: string, naExpr: string, warnExpr: string): string {
    if naExpr == "" && warnExpr == "" then expr
    else
      var hard := ScalarizeText(expr);
      var na := if naExpr != "" then ScalarizeText(naExpr) else "vector(0)";
      var warn := if warnExpr != "" then ScalarizeText(warnExpr) else "vector(0)";
      "(2 * " + na + ") + ((1 - " + na + ") * " + hard + " * (1 + (2 * " + warn + ")))"
  }

  function TextOr(p: Option<Expr>): string {
    if p.Some? then Text(p.value) else ""
  }

  lemma Numbers()
    ensures Number(0) == "0" && Number(1) == "1" && Number(2) == "2"
  {
  }

  lemma ScalarizeStrings(t: string, zero: string, one: string)
    requires zero == "0" && one == "1"
    ensures
      var capped := "clamp_max(" + ("max(" + t + ")") + ", " + one + ")";
      "(" + (capped + (" or " + "") + ("vector(" + zero + ")")) + ")" == ScalarizeText(t)
  {
    CappedString(t, one);
    assert "vector(" + zero + ")" == "vector(0)";
    OrString("clamp_max(max(" + t + "), 1)", t);
  }

  lemma CappedString(t: string, one: string)
    requires one == "1"
    ensures "clamp_max(" + ("max(" + t + ")") + ", " + one + ")" == "clamp_max(max(" + t + "), 1)"
  {
  }

  lemma OrString(capped: string, t: string)
    requires capped == "clamp_max(max(" + t + "), 1)"
    ensures "(" + (capped + (" or " + "") + "vector(0)") + ")" == ScalarizeText(t)
  {
    assert " or " + "" == " or ";
    Regroup("(", "clamp_max(max(", t, "), 1)", " or ", "vector(0)", ")");
    assert "(" + "clamp_max(max(" == "(clamp_max(max(";
    assert "), 1)" + " or " + "vector(0)" + ")" == "), 1) or vector(0))";
  }

  lemma Regroup(x: string, a: string, t: string, b: string, c: string, d: string, y: string)
    ensures x + ((a + t + b) + c + d) + y == (x + a) + t + (b + c + d + y)
  {
  }

  lemma ScalarizeIsItsText(p: Expr)
    ensures Text(Scalarize(p)) == ScalarizeText(Text(p))
  {
    Numbers();
    ScalarizeStrings(Text(p), Number(0), Number(1));
    ScalarizeUnfolds(p);
  }

  lemma ScalarizeUnfolds(p: Expr)
    ensures
      var capped := "clamp_max(" + ("max(" + Text(p) + ")") + ", " + Number(1) + ")";
      Text(Scalarize(p)) == "(" + (capped + (" or " + "") + ("vector(" + Number(0) + ")")) + ")"
  {
    var m := Max(p);
    assert Text(m) == "max(" + Text(p) + ")";
    var k := ClampMax(m, 1);
    assert Text(k) == "clamp_max(" + Text(m) + ", " + Number(1) + ")";
    assert OnText(AllLabels) == "";
    var o := Or(k, AllLabels, Const(0));
    assert Text(o) == Text(k) + (" or " + "") + ("vector(" + Number(0) + ")");
  }

  lemma {:induction false} TextIsNotEmpty(e: Expr)
    ensures Text(e) != ""
  {
  }

  lemma ScalarizeOr0IsItsText(p: Option<Expr>)
    ensures Text(ScalarizeOr0(p)) == if TextOr(p) != "" then ScalarizeText(TextOr(p)) else "vector(0)"
    ensures TextOr(p) == "" <==> p.None?
  {
    if p.Some? {
      ScalarizeIsItsText(p.value);
      TextIsNotEmpty(p.value);
    } else {
      assert Number(0) == "0";
    }
  }

  /** The string the program concatenates is the text of the composed expression. */
  lemma ComposeIsItsText(c: Check)
    ensures ComposeText(Text(c.expr), TextOr(c.na), TextOr(c.warn)) == Text(Compose(c))
  {
    ScalarizeIsItsText(c.expr);
    ScalarizeOr0IsItsText(c.na);
    ScalarizeOr0IsItsText(c.warn);
    if c.na.Some? || c.warn.Some? {
      ConcatenationsAgree(Scalarize(c.expr), ScalarizeOr0(c.na), ScalarizeOr0(c.warn));
    }
  }

  lemma ScalarText(c: nat, op: Op, e: Expr)
    ensures Text(Paren(Scalar(c, op, e))) == "(" + (Number(c) + OpText(op) + Text(e)) + ")"
  {
    assert Text(Scalar(c, op, e)) == Number(c) + OpText(op) + Text(e);
  }

  lemma PartStrings(n: string, w: string, one: string, two: string)
    requires one == "1" && two == "2"
    ensures "(" + (two + " * " + n) + ")" == "(2 * " + n + ")"
    ensures "(" + (one + " - " + n) + ")" == "(1 - " + n + ")"
    ensures "(" + (one + " + " + ("(" + (two + " * " + w) + ")")) + ")" == "(1 + (2 * " + w + "))"
  {
    assert "(" + (two + " * " + w) + ")" == "(2 * " + w + ")";
    assert "(" + (one + " + " + ("(2 * " + w + ")")) + ")" == "(1 + (2 * " + w + "))";
  }

  lemma JoinStrings(n: string, h: string, w: string, a: string, b: string, d: string)
    requires a == "(2 * " + n + ")" && b == "(1 - " + n + ")" && d == "(1 + (2 * " + w + "))"
    ensures "(2 * " + n + ") + ((1 - " + n + ") * " + h + " * (1 + (2 * " + w + ")))"
         == a + (" + " + "") + ("(" + ((b + (" * " + "") + h) + (" * " + "") + d) + ")")
  {
    FlatText(n, h, w, a, b, d);
    FlatTree(h, a, b, d);
  }

  lemma FlatText(n: string, h: string, w: string, a: string, b: string, d: string)
    requires a == "(2 * " + n + ")" && b == "(1 - " + n + ")" && d == "(1 + (2 * " + w + "))"
    ensures "(2 * " + n + ") + ((1 - " + n + ") * " + h + " * (1 + (2 * " + w + ")))"
         == a + " + (" + b + " * " + h + " * " + d + ")"
  {
  }

  lemma FlatTree(h: string, a: string, b: string, d: string)
    ensures a + (" + " + "") + ("(" + ((b + (" * " + "") + h) + (" * " + "") + d) + ")")
         == a + " + (" + b + " * " + h + " * " + d + ")"
  {
    assert " + " + "" == " + " && " * " + "" == " * ";
  }

  lemma ConcatenationsAgree(hard: Expr, na: Expr, warn: Expr)
    ensures
      "(2 * " + Text(na) + ") + ((1 - " + Text(na) + ") * " + Text(hard) + " * (1 + (2 * " + Text(warn) + ")))"
      == Text(Skeleton(hard, na, warn))
  {
    Numbers();
    var a, b, c := Paren(Scalar(2, Mul, na)), Paren(Scalar(1, Sub, na)), Paren(Scalar(2, Mul, warn));
    var d := Paren(Scalar(1, Add, c));
    ScalarText(2, Mul, na);
    ScalarText(1, Sub, na);
    ScalarText(2, Mul, warn);
    ScalarText(1, Add, c);
    PartStrings(Text(na), Text(warn), Number(1), Number(2));
    JoinStrings(Text(na), Text(hard), Text(warn), Text(a), Text(b), Text(d));
    BinariesUnfold(a, b, hard, d);
  }

  lemma BinariesUnfold(a: Expr, b: Expr, h: Expr, d: Expr)
    ensures
      Text(Binary(a, Add, AllLabels, Paren(Binary(Binary(b, Mul, AllLabels, h), Mul, AllLabels, d))))
      == Text(a) + (" + " + "") + ("(" + ((Text(b) + (" * " + "") + Text(h)) + (" * " + "") + Text(d)) + ")")
  {
    assert OnText(AllLabels) == "" && OpText(Add) == " + " && OpText(Mul) == " * ";
    var bh := Binary(b, Mul, AllLabels, h);
    assert Text(bh) == Text(b) + (" * " + "") + Text(h);
    var bhd := Binary(bh, Mul, AllLabels, d);
    assert Text(bhd) == Text(bh) + (" * " + "") + Text(d);
  }

  // ----- meaning of the composed expression -----

  function One(x: real): Vector {
    map[NO_LABELS := x]
  }

  /** The 0/1 value a predicate's samples are reduced to. */
  ghost function Flag(v: Vector): real {
    if v == map[] then 0.0 else if MaxOf(v) < 1.0 then MaxOf(v) else 1.0
  }

  /** Some sample is at least 1. */
  ghost predicate Truthy(v: Vector) {
    exists l :: l in v && v[l] >= 1.0
  }

  /** All a status predicate may yield: no sample, or samples that are non-negative integers. */
  ghost predicate Countable(v: Vector) {
    forall l :: l in v ==> v[l] == v[l].Floor as real && v[l] >= 0.0
  }

  lemma FlagIsTruth(v: Vector)
    requires Countable(v)
    ensures Flag(v) == if Truthy(v) then 1.0 else 0.0
  {
    if v != map[] {
      var l :| l in v && v[l] == MaxOf(v);
      if !Truthy(v) {
        assert v[l] < 1.0;
        assert v[l].Floor == 0;
      }
    }
  }

  lemma ScalarizeMeans(store: Vector, p: Expr)
    ensures Eval(store, Scalarize(p))
         == if Eval(store, p).None? then None else Some(One(Flag(Eval(store, p).value)))
  {
    var clamp, zero := ClampMax(Max(p), 1), Const(0);
    ParenIsTransparent(store, Or(clamp, AllLabels, zero));
    ClampMeans(store, p);
    if Eval(store, p).None? {
      assert Eval(store, Or(clamp, AllLabels, zero)).None?;
    } else {
      ClampedOrZero(Eval(store, p).value);
      OrMeans(store, clamp, AllLabels, zero);
      assert Eval(store, zero) == Some(One(0.0));
    }
  }

  lemma ClampMeans(store: Vector, p: Expr)
    ensures Eval(store, ClampMax(Max(p), 1))
         == if Eval(store, p).None? then None else MapSamples(Reduced(Eval(store, p).value), Clamp(1.0))
  {
    var top := Max(p);
    assert Eval(store, top) == if Eval(store, p).None? then None else Some(Reduced(Eval(store, p).value));
  }

  lemma OrMeans(store: Vector, l: Expr, m: Matching, r: Expr)
    requires Eval(store, l).Some? && Eval(store, r).Some?
    ensures Eval(store, Or(l, m, r)) == Some(Union(Eval(store, l).value, m, Eval(store, r).value))
  {
  }

  lemma ClampedOrZero(v: Vector)
    ensures MapSamples(Reduced(v), Clamp(1.0)).Some?
    ensures Union(MapSamples(Reduced(v), Clamp(1.0)).value, AllLabels, One(0.0)) == One(Flag(v))
  {
    if v == map[] {
      MapNone(Clamp(1.0));
      UnionOfEmpty(AllLabels, One(0.0));
    } else {
      MapOne(NO_LABELS, MaxOf(v), Clamp(1.0));
      assert NO_LABELS - {NAME} == NO_LABELS;
      assert HasSignature(One(Flag(v)), AllLabels, Signature(AllLabels, NO_LABELS));
      UnionShadowed(One(Flag(v)), AllLabels, One(0.0));
    }
  }

  /** The value of an optional predicate; a missing one counts as never true. */
  ghost function Optional(store: Vector, p: Option<Expr>): Option<Vector> {
    if p.Some? then Eval(store, p.value) else Some(map[])
  }

  lemma ScalarizeOr0Means(store: Vector, p: Option<Expr>)
    ensures Eval(store, ScalarizeOr0(p))
         == if Optional(store, p).None? then None else Some(One(Flag(Optional(store, p).value)))
  {
    if p.Some? {
      ScalarizeMeans(store, p.value);
    }
  }

  lemma ScalarOne(store: Vector, c: nat, op: Op, e: Expr, x: real, z: real)
    requires Eval(store, e) == Some(One(x)) && z == Apply(op, c as real, x)
    ensures Eval(store, Paren(Scalar(c, op, e))) == Some(One(z))
  {
    MapOne(NO_LABELS, x, With(c as real, op));
    assert NO_LABELS - {NAME} == NO_LABELS;
  }

  lemma BinaryOne(store: Vector, l: Expr, op: Op, r: Expr, x: real, y: real, z: real)
    requires Eval(store, l) == Some(One(x)) && Eval(store, r) == Some(One(y)) && z == Apply(op, x, y)
    ensures Eval(store, Binary(l, op, AllLabels, r)) == Some(One(z))
  {
    MatchOne(NO_LABELS, x, op, AllLabels, NO_LABELS, y);
    assert NO_LABELS - {NAME} == NO_LABELS;
  }

  /** The encoding of the priority: 2·na + (1 - na)·hard·(1 + 2·warn). */
  function RowValue(hard: real, na: real, warn: real): real {
    2.0 * na + (1.0 - na) * hard * (1.0 + 2.0 * warn)
  }

  lemma SkeletonEvaluates(store: Vector, h: Expr, n: Expr, w: Expr, x: real, y: real, z: real)
    requires Eval(store, h) == Some(One(x)) && Eval(store, n) == Some(One(y)) && Eval(store, w) == Some(One(z))
    ensures Eval(store, Skeleton(h, n, w)) == Some(One(RowValue(x, y, z)))
  {
    var na, notNa, twice, scale := 2.0 * y, 1.0 - y, 2.0 * z, 1.0 + 2.0 * z;
    var a, b, c := Paren(Scalar(2, Mul, n)), Paren(Scalar(1, Sub, n)), Paren(Scalar(2, Mul, w));
    var d := Paren(Scalar(1, Add, c));
    ScalarOne(store, 2, Mul, n, y, na);
    ScalarOne(store, 1, Sub, n, y, notNa);
    ScalarOne(store, 2, Mul, w, z, twice);
    ScalarOne(store, 1, Add, c, twice, scale);
    ProductsEvaluate(store, a, b, h, d, na, notNa, x, scale);
    ProductsAre(x, y, z);
  }

  lemma ProductsEvaluate(store: Vector, a: Expr, b: Expr, h: Expr, d: Expr, s: real, t: real, x: real, u: real)
    requires Eval(store, a) == Some(One(s)) && Eval(store, b) == Some(One(t))
    requires Eval(store, h) == Some(One(x)) && Eval(store, d) == Some(One(u))
    ensures Eval(store, Binary(a, Add, AllLabels, Paren(Binary(Binary(b, Mul, AllLabels, h), Mul, AllLabels, d))))
         == Some(One(Apply(Add, s, Apply(Mul, Apply(Mul, t, x), u))))
  {
    var p := Apply(Mul, t, x);
    var bh := Binary(b, Mul, AllLabels, h);
    BinaryOne(store, b, Mul, h, t, x, p);
    var bhd := Binary(bh, Mul, AllLabels, d);
    BinaryOne(store, bh, Mul, d, p, u, Apply(Mul, p, u));
    ParenIsTransparent(store, bhd);
    BinaryOne(store, a, Add, Paren(bhd), s, Apply(Mul, p, u), Apply(Add, s, Apply(Mul, p, u)));
  }

  lemma ProductsAre(x: real, y: real, z: real)
    ensures Apply(Add, 2.0 * y, Apply(Mul, Apply(Mul, 1.0 - y, x), 1.0 + 2.0 * z)) == RowValue(x, y, z)
  {
  }

  lemma ParenIsTransparent(store: Vector, e: Expr)
    ensures Eval(store, Paren(e)) == Eval(store, e)
  {
  }

  lemma ParenScalarFails(store: Vector, c: nat, op: Op, e: Expr)
    requires Eval(store, e).None?
    ensures Eval(store, Paren(Scalar(c, op, e))).None?
  {
    assert Eval(store, Scalar(c, op, e)).None?;
  }

  lemma SkeletonFails(store: Vector, h: Expr, n: Expr, w: Expr)
    requires Eval(store, h).None? || Eval(store, n).None? || Eval(store, w).None?
    ensures Eval(store, Skeleton(h, n, w)).None?
  {
    var b, d := Paren(Scalar(1, Sub, n)), Paren(Scalar(1, Add, Paren(Scalar(2, Mul, w))));
    var bh := Binary(b, Mul, AllLabels, h);
    if Eval(store, w).None? {
      ParenScalarFails(store, 2, Mul, w);
      ParenScalarFails(store, 1, Add, Paren(Scalar(2, Mul, w)));
    }
    if Eval(store, n).None? {
      ParenScalarFails(store, 1, Sub, n);
    }
    assert Eval(store, bh).None? || Eval(store, d).None?;
    assert Eval(store, Binary(bh, Mul, AllLabels, d)).None?;
    assert Eval(store, Paren(Binary(bh, Mul, AllLabels, d))).None?;
  }

  /** A composed row is one label-less sample, made of its three reduced predicates. */
  lemma ComposeEvaluates(store: Vector, c: Check, hard: Vector, na: Vector, warn: Vector)
    requires c.na.Some? || c.warn.Some?
    requires Eval(store, c.expr) == Some(hard)
    requires Optional(store, c.na) == Some(na) && Optional(store, c.warn) == Some(warn)
    ensures Eval(store, Compose(c))
         == Some(One(RowValue(Flag(hard), Flag(na), Flag(warn))))
  {
    ScalarizeMeans(store, c.expr);
    ScalarizeOr0Means(store, c.na);
    ScalarizeOr0Means(store, c.warn);
    SkeletonEvaluates(
      store, Scalarize(c.expr), ScalarizeOr0(c.na), ScalarizeOr0(c.warn), Flag(hard), Flag(na), Flag(warn));
  }

  /** The cell values of the dashboard. */
  datatype Status = FAIL | PASS | NA | WARN

  function Code(s: Status): real {
    match s
    case FAIL => 0.0
    case PASS => 1.0
    case NA => 2.0
    case WARN => 3.0
  }

  /** The documented priority: not applicable, then fail, then warn, then pass. */
  function StatusOf(hard: bool, na: bool, warn: bool): Status {
    if na then NA else if !hard then FAIL else if warn then WARN else PASS
  }

  /**
   * On every store, series present or absent: a row with an N/A or WARN predicate whose predicates
   * yield counts shows exactly one label-less sample, the code of the documented priority.
   */
  lemma ComposedRowShowsStatus(store: Vector, c: Check, hard: Vector, na: Vector, warn: Vector)
    requires c.na.Some? || c.warn.Some?
    requires Eval(store, c.expr) == Some(hard)
    requires Optional(store, c.na) == Some(na) && Optional(store, c.warn) == Some(warn)
    requires Countable(hard) && Countable(na) && Countable(warn)
    ensures Eval(store, Compose(c)) == Some(One(Code(StatusOf(Truthy(hard), Truthy(na), Truthy(warn)))))
  {
    ComposeEvaluates(store, c, hard, na, warn);
    FlagIsTruth(hard);
    FlagIsTruth(na);
    FlagIsTruth(warn);
  }

  /** A query error in any predicate, and nothing else, makes the row an error. */
  lemma ComposedRowFailsIff(store: Vector, c: Check)
    requires c.na.Some? || c.warn.Some?
    ensures Eval(store, Compose(c)).None? <==>
              Eval(store, c.expr).None? || Optional(store, c.na).None? || Optional(store, c.warn).None?
  {
    ScalarizeMeans(store, c.expr);
    ScalarizeOr0Means(store, c.na);
    ScalarizeOr0Means(store, c.warn);
    var h, n, w := Scalarize(c.expr), ScalarizeOr0(c.na), ScalarizeOr0(c.warn);
    if Eval(store, h).None? || Eval(store, n).None? || Eval(store, w).None? {
      SkeletonFails(store, h, n, w);
    } else {
      ComposeEvaluates(store, c, Eval(store, c.expr).value, Optional(store, c.na).value, Optional(store, c.warn).value);
    }
  }
}
