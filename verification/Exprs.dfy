/** Predicates as they arrive, the values they range over, and their evaluation on one row. */
module Exprs {
  import opened Entries

  datatype Num = Int(i: int) | Frac(f: real) {
    function Real(): real { if Int? then i as real else f }
  }

  datatype Value =
    | Null | Bool(b: bool) | Number(n: Num) | Text(s: string)
    | Array(items: seq<Value>) | Object(fields: map<string, Value>)

  /** An absent argument list and an empty one are treated alike. */
  datatype Expr = Expr(
    kind: string, val: Option<Value>, vtype: Option<string>, name: Option<string>, field: Option<string>,
    obj: Option<Expr>, key: Option<Expr>, op: Option<string>, args: seq<Expr>,
    l: Option<Expr>, r: Option<Expr>, x: Option<Expr>, loopVar: Option<string>, cond: Option<Expr>)

  /** The loop variable, and the two foreign parts of evaluation: how a value writes as text and
      how one character lowers. */
  datatype Context = Context(item: string, render: Value -> string, lower: char -> char)

  datatype Problem = TooDeep | Unsupported

  datatype Outcome = Good(value: Value) | Bad(problem: Problem)

  const MAX_PREDICATE_DEPTH: nat := 64
  const MAX_PREDICATE_NODES: nat := 256
  const MAX_PREDICATE_STRING: nat := 65536
  const MAX_IN_SET: nat := 1000

  predicate Truthy(v: Value) {
    match v
    case Bool(b) => b
    case Null => false
    case _ => true
  }

  /** Numbers compare by value, everything else structurally. */
  predicate ValuesEqual(l: Value, r: Value) {
    if l.Number? && r.Number? then l.n.Real() == r.n.Real() else l == r
  }

  function Trunc(r: real): real {
    if r >= 0.0 then r.Floor as real else -((-r).Floor as real)
  }

  /** A literal's value, in the type it declares. */
  function LitValue(e: Expr, ctx: Context): Value {
    var val := if e.val.Some? then e.val.value else Null;
    if e.vtype == Some("int") then
      if val.Number? then (if val.n.Int? then val else Number(Frac(Trunc(val.n.f)))) else Null
    else if e.vtype == Some("bool") then Bool(val.Bool? && val.b)
    else if e.vtype == Some("text") then (if val.Text? then val else Text(ctx.render(val)))
    else val
  }

  function Get(data: Value, field: string): Value {
    if data.Object? && field in data.fields then data.fields[field] else Null
  }

  function Lowered(s: string, ctx: Context): string {
    seq(|s|, i requires 0 <= i < |s| => ctx.lower(s[i]))
  }

  function LowerText(v: Value, ctx: Context): string {
    match v
    case Text(s) => Lowered(s, ctx)
    case Null => ""
    case Bool(b) => if b then "true" else "false"
    case _ => Lowered(ctx.render(v), ctx)
  }

  predicate StartsWith(s: string, t: string) { t <= s }

  predicate EndsWith(s: string, t: string) { |t| <= |s| && s[|s| - |t|..] == t }

  predicate OccursAt(s: string, t: string, i: nat) { i + |t| <= |s| && s[i..i + |t|] == t }

  predicate Contains(s: string, t: string) {
    exists i :: 0 <= i <= |s| && OccursAt(s, t, i)
  }

  function Utf8Length(s: string): nat {
    if s == [] then 0 else
      var c := s[|s| - 1] as int;
      Utf8Length(s[..|s| - 1]) + if c < 0x80 then 1 else if c < 0x800 then 2 else if c < 0x10000 then 3 else 4
  }

  predicate StringTest(op: string) { op == "starts_with" || op == "ends_with" || op == "contains" }

  predicate Found(op: string, s: string, t: string) {
    if op == "starts_with" then StartsWith(s, t) else if op == "ends_with" then EndsWith(s, t) else Contains(s, t)
  }

  function EvalBinOp(op: string, l: Value, r: Value): Outcome {
    if op == "==" then Good(Bool(ValuesEqual(l, r)))
    else if op == "!=" then Good(Bool(!ValuesEqual(l, r)))
    else if StringTest(op) then Good(Bool(l.Text? && r.Text? && Found(op, l.s, r.s)))
    else if op == "in" || op == "not in" then
      if !r.Array? || |r.items| > MAX_IN_SET then Bad(Unsupported)
      else
        var found := exists i :: 0 <= i < |r.items| && ValuesEqual(l, r.items[i]);
        Good(Bool(if op == "in" then found else !found))
    else if op == "+" && l.Text? && r.Text? then
      if Utf8Length(l.s) + Utf8Length(r.s) > MAX_PREDICATE_STRING then Bad(Unsupported) else Good(Text(l.s + r.s))
    else if !l.Number? || !r.Number? then Bad(Unsupported)
    else Arithmetic(op, l.n.Real(), r.n.Real())
  }

  function Arithmetic(op: string, l: real, r: real): Outcome {
    if op == "<" then Good(Bool(l < r))
    else if op == "<=" then Good(Bool(l <= r))
    else if op == ">" then Good(Bool(l > r))
    else if op == ">=" then Good(Bool(l >= r))
    else if op == "+" then Good(Number(Frac(l + r)))
    else if op == "-" then Good(Number(Frac(l - r)))
    else if op == "*" then Good(Number(Frac(l * r)))
    else if op == "/" then (if r == 0.0 then Bad(Unsupported) else Good(Number(Frac(l / r))))
    else if op == "%" then (if r == 0.0 then Bad(Unsupported) else Good(Number(Frac(l - r * Trunc(l / r)))))
    else Bad(Unsupported)
  }

  /** A binary operator on what its sides evaluate to. `&&` and `||` look at the right side only
      when the left has not decided. */
  function Combine(op: string, lv: Outcome, rv: Outcome): Outcome {
    if lv.Bad? then lv
    else if op == "&&" && !Truthy(lv.value) then Good(Bool(false))
    else if op == "||" && Truthy(lv.value) then Good(Bool(true))
    else if rv.Bad? then rv
    else if op == "&&" || op == "||" then Good(Bool(Truthy(rv.value)))
    else EvalBinOp(op, lv.value, rv.value)
  }

  function Negate(op: Option<string>, v: Outcome): Outcome {
    if v.Bad? then v
    else if op == Some("!") then Good(Bool(!Truthy(v.value)))
    else if op == Some("-") && v.value.Number? then Good(Number(Frac(-v.value.n.Real())))
    else Bad(Unsupported)
  }

  function EvalAt(e: Expr, ctx: Context, data: Value, depth: nat): Outcome {
    if depth >= MAX_PREDICATE_DEPTH then Bad(TooDeep)
    else if e.kind == "lit" then Good(LitValue(e, ctx))
    else if e.kind == "get" then
      if e.obj.None? || e.obj.value.kind != "ref" || e.obj.value.name != Some(ctx.item) || e.field.None? then
        Bad(Unsupported)
      else Good(Get(data, e.field.value))
    else if e.kind == "un" then
      if e.x.None? then Bad(Unsupported)
      else Negate(e.op, EvalAt(e.x.value, ctx, data, depth + 1))
    else if e.kind == "bin" then
      if e.l.None? || e.r.None? || e.op.None? then Bad(Unsupported)
      else Combine(e.op.value, EvalAt(e.l.value, ctx, data, depth + 1), EvalAt(e.r.value, ctx, data, depth + 1))
    else if e.kind == "call" then
      if e.name != Some("lower") || |e.args| != 1 then Bad(Unsupported)
      else
        var v := EvalAt(e.args[0], ctx, data, depth + 1);
        if v.Bad? then v else Good(Text(LowerText(v.value, ctx)))
    else Bad(Unsupported)
  }

  function Eval(e: Expr, ctx: Context, data: Value): Outcome { EvalAt(e, ctx, data, 0) }

  // ---- building expressions ----

  function Leaf(kind: string): Expr {
    Expr(kind, None, None, None, None, None, None, None, [], None, None, None, None, None)
  }

  function Literal(v: Value): Expr { Leaf("lit").(val := Some(v)) }

  function FieldOf(ctx: Context, field: string): Expr {
    Leaf("get").(field := Some(field), obj := Some(Leaf("ref").(name := Some(ctx.item))))
  }

  function Binary(op: string, l: Expr, r: Expr): Expr {
    Leaf("bin").(op := Some(op), l := Some(l), r := Some(r))
  }

  function Unary(op: string, x: Expr): Expr { Leaf("un").(op := Some(op), x := Some(x)) }

  // ---- shape ----

  /** Every node of a predicate, counting fields evaluation never looks at. */
  function Size(e: Expr): nat
    decreases e
  {
    1 + OptSize(e.obj) + OptSize(e.key) + OptSize(e.l) + OptSize(e.r) + OptSize(e.x) + OptSize(e.cond)
      + AllSize(e.args)
  }

  function OptSize(o: Option<Expr>): nat
    decreases o
  {
    if o.Some? then Size(o.value) else 0
  }

  function AllSize(es: seq<Expr>): nat
    decreases es
  {
    if es == [] then 0 else AllSize(es[..|es| - 1]) + Size(es[|es| - 1])
  }

  function Max(a: nat, b: nat): nat { if a < b then b else a }

  function Height(e: Expr): nat
    decreases e
  {
    1 + Max(Max(Max(OptHeight(e.obj), OptHeight(e.key)), Max(OptHeight(e.l), OptHeight(e.r))),
            Max(Max(OptHeight(e.x), OptHeight(e.cond)), AllHeight(e.args)))
  }

  function OptHeight(o: Option<Expr>): nat
    decreases o
  {
    if o.Some? then Height(o.value) else 0
  }

  function AllHeight(es: seq<Expr>): nat
    decreases es
  {
    if es == [] then 0 else Max(AllHeight(es[..|es| - 1]), Height(es[|es| - 1]))
  }

  /** Walk the whole tree, spending one unit of the budget per node. It succeeds exactly when
      the tree fits both bounds, and then spends exactly its size. */
  method ValidateAt(e: Expr, depth: nat, budget: nat) returns (ok: bool, left: nat)
    ensures ok <==> depth + Height(e) <= MAX_PREDICATE_DEPTH && Size(e) <= budget
    ensures ok ==> left == budget - Size(e)
    decreases e
  {
    left := budget;
    if depth >= MAX_PREDICATE_DEPTH { return false, left; }
    if left == 0 { return false, left; }
    left := left - 1;
    ok, left := ValidateChild(e.obj, depth + 1, left);
    if !ok { return; }
    ok, left := ValidateChild(e.key, depth + 1, left);
    if !ok { return; }
    ok, left := ValidateChild(e.l, depth + 1, left);
    if !ok { return; }
    ok, left := ValidateChild(e.r, depth + 1, left);
    if !ok { return; }
    ok, left := ValidateChild(e.x, depth + 1, left);
    if !ok { return; }
    ok, left := ValidateChild(e.cond, depth + 1, left);
    if !ok { return; }
    ok, left := ValidateArgs(e.args, depth + 1, left);
  }

  method ValidateChild(o: Option<Expr>, depth: nat, budget: nat) returns (ok: bool, left: nat)
    requires depth <= MAX_PREDICATE_DEPTH
    ensures ok <==> depth + OptHeight(o) <= MAX_PREDICATE_DEPTH && OptSize(o) <= budget
    ensures ok ==> left == budget - OptSize(o)
    decreases o
  {
    if o.None? { return true, budget; }
    ok, left := ValidateAt(o.value, depth, budget);
  }

  method ValidateArgs(es: seq<Expr>, depth: nat, budget: nat) returns (ok: bool, left: nat)
    requires depth <= MAX_PREDICATE_DEPTH
    ensures ok <==> depth + AllHeight(es) <= MAX_PREDICATE_DEPTH && AllSize(es) <= budget
    ensures ok ==> left == budget - AllSize(es)
    decreases es
  {
    ok, left := true, budget;
    for i := 0 to |es|
      invariant ok && depth + AllHeight(es[..i]) <= MAX_PREDICATE_DEPTH
      invariant AllSize(es[..i]) <= budget && left == budget - AllSize(es[..i])
    {
      assert es[..i + 1][..i] == es[..i];
      AllParts(es, i + 1);
      ok, left := ValidateAt(es[i], depth, left);
      if !ok { return; }
    }
    assert es[..|es|] == es;
  }

  lemma {:induction false} AllParts(es: seq<Expr>, n: nat)
    requires n <= |es|
    ensures AllHeight(es[..n]) <= AllHeight(es) && AllSize(es[..n]) <= AllSize(es)
    decreases |es|
  {
    if n == |es| {
      assert es[..n] == es;
    } else {
      AllParts(es[..|es| - 1], n);
      assert es[..|es| - 1][..n] == es[..n];
    }
  }

  method Validate(e: Expr) returns (ok: bool)
    ensures ok <==> Size(e) <= MAX_PREDICATE_NODES && Height(e) <= MAX_PREDICATE_DEPTH
  {
    var left: nat;
    ok, left := ValidateAt(e, 0, MAX_PREDICATE_NODES);
  }

  /** Evaluating a predicate that fits the depth bound never fails for depth. */
  lemma {:induction false} DepthSuffices(e: Expr, ctx: Context, data: Value, depth: nat)
    requires depth + Height(e) <= MAX_PREDICATE_DEPTH
    ensures EvalAt(e, ctx, data, depth) != Bad(TooDeep)
    decreases e
  {
    hide Height, Combine, Negate, LowerText, LitValue, Get;
    HeightParts(e);
    if e.kind == "un" && e.x.Some? {
      DepthSuffices(e.x.value, ctx, data, depth + 1);
      NotDeep(e.op, EvalAt(e.x.value, ctx, data, depth + 1));
    } else if e.kind == "bin" && e.l.Some? && e.r.Some? && e.op.Some? {
      DepthSuffices(e.l.value, ctx, data, depth + 1);
      DepthSuffices(e.r.value, ctx, data, depth + 1);
      CombineNotDeep(e.op.value, EvalAt(e.l.value, ctx, data, depth + 1), EvalAt(e.r.value, ctx, data, depth + 1));
    } else if e.kind == "call" && |e.args| == 1 {
      DepthSuffices(e.args[0], ctx, data, depth + 1);
    }
  }

  lemma HeightParts(e: Expr)
    ensures Height(e) > 0
    ensures e.x.Some? ==> Height(e.x.value) < Height(e)
    ensures e.l.Some? ==> Height(e.l.value) < Height(e)
    ensures e.r.Some? ==> Height(e.r.value) < Height(e)
    ensures |e.args| == 1 ==> Height(e.args[0]) < Height(e)
  {
  }

  lemma NotDeep(op: Option<string>, v: Outcome)
    requires v != Bad(TooDeep)
    ensures Negate(op, v) != Bad(TooDeep)
  {
  }

  lemma CombineNotDeep(op: string, lv: Outcome, rv: Outcome)
    requires lv != Bad(TooDeep) && rv != Bad(TooDeep)
    ensures Combine(op, lv, rv) != Bad(TooDeep)
  {
  }
}
