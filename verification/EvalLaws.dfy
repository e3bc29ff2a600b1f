/** What the operators of predicates mean: laws of evaluation, over every row and every operand. */
module EvalLaws {
  import opened Entries
  import opened Exprs

  /** An operand small enough to be nested a few levels deep. */
  predicate Small(e: Expr) { Height(e) + 5 <= MAX_PREDICATE_DEPTH }

  /** An operand that evaluates to the number `x`. */
  predicate Numeric(e: Expr, ctx: Context, data: Value, x: real) {
    Small(e) && var o := Eval(e, ctx, data); o.Good? && o.value.Number? && o.value.n.Real() == x
  }

  predicate Yields(e: Expr, ctx: Context, data: Value, v: Value) { Eval(e, ctx, data) == Good(v) }

  const YES := Bool(true)
  const NO := Bool(false)

  // ---- depth does not matter while it suffices ----

  lemma {:induction false} AnyDepth(e: Expr, ctx: Context, data: Value, c: nat, d: nat)
    requires c + Height(e) <= MAX_PREDICATE_DEPTH && d + Height(e) <= MAX_PREDICATE_DEPTH
    ensures EvalAt(e, ctx, data, c) == EvalAt(e, ctx, data, d)
    decreases e
  {
    hide Height, Combine, Negate, LowerText, LitValue, Get;
    HeightParts(e);
    if e.kind == "un" && e.x.Some? {
      AnyDepth(e.x.value, ctx, data, c + 1, d + 1);
    } else if e.kind == "bin" && e.l.Some? && e.r.Some? && e.op.Some? {
      AnyDepth(e.l.value, ctx, data, c + 1, d + 1);
      AnyDepth(e.r.value, ctx, data, c + 1, d + 1);
    } else if e.kind == "call" && |e.args| == 1 {
      AnyDepth(e.args[0], ctx, data, c + 1, d + 1);
    }
  }

  /** A binary operator on operands, wherever it stands. */
  lemma BinAt(op: string, l: Expr, r: Expr, ctx: Context, data: Value, depth: nat)
    requires depth < MAX_PREDICATE_DEPTH
    ensures EvalAt(Binary(op, l, r), ctx, data, depth) ==
            Combine(op, EvalAt(l, ctx, data, depth + 1), EvalAt(r, ctx, data, depth + 1))
  {
    hide Combine;
  }

  lemma Operands(op: string, l: Expr, r: Expr, ctx: Context, data: Value, depth: nat)
    requires depth < 4 && Small(l) && Small(r)
    ensures EvalAt(Binary(op, l, r), ctx, data, depth) == Combine(op, Eval(l, ctx, data), Eval(r, ctx, data))
  {
    hide Combine, EvalAt, Height;
    BinAt(op, l, r, ctx, data, depth);
    AnyDepth(l, ctx, data, depth + 1, 0);
    AnyDepth(r, ctx, data, depth + 1, 0);
  }

  lemma NotAt(x: Expr, ctx: Context, data: Value, depth: nat)
    requires depth < MAX_PREDICATE_DEPTH
    ensures EvalAt(Unary("!", x), ctx, data, depth) == Negate(Some("!"), EvalAt(x, ctx, data, depth + 1))
    ensures EvalAt(Unary("-", x), ctx, data, depth) == Negate(Some("-"), EvalAt(x, ctx, data, depth + 1))
  {
    hide Negate;
  }

  /** One operator between two operands, and one more around it. */
  lemma Around(op: string, inner: string, l: Expr, r: Expr, x: Expr, ctx: Context, data: Value)
    requires Small(l) && Small(r) && Small(x)
    ensures Eval(Binary(op, Binary(inner, l, r), x), ctx, data) ==
            Combine(op, Combine(inner, Eval(l, ctx, data), Eval(r, ctx, data)), Eval(x, ctx, data))
    ensures Eval(Binary(op, x, Binary(inner, l, r)), ctx, data) ==
            Combine(op, Eval(x, ctx, data), Combine(inner, Eval(l, ctx, data), Eval(r, ctx, data)))
  {
    hide Combine, EvalAt, Height;
    BinAt(op, Binary(inner, l, r), x, ctx, data, 0);
    BinAt(op, x, Binary(inner, l, r), ctx, data, 0);
    Operands(inner, l, r, ctx, data, 1);
    AnyDepth(x, ctx, data, 1, 0);
  }

  // ---- order ----

  /** Exactly one of less, equal and greater. */
  lemma Trichotomy(a: Expr, b: Expr, ctx: Context, data: Value, x: real, y: real)
    requires Numeric(a, ctx, data, x) && Numeric(b, ctx, data, y)
    ensures Yields(Binary("<", a, b), ctx, data, Bool(x < y))
    ensures Yields(Binary("==", a, b), ctx, data, Bool(x == y))
    ensures Yields(Binary(">", a, b), ctx, data, Bool(y < x))
    ensures Yields(Binary("!=", a, b), ctx, data, Bool(x != y))
  {
    hide EvalAt, Height;
    Operands("<", a, b, ctx, data, 0);
    Operands("==", a, b, ctx, data, 0);
    Operands(">", a, b, ctx, data, 0);
    Operands("!=", a, b, ctx, data, 0);
  }

  /** At most and at least are the negations of greater and less. */
  lemma Negations(a: Expr, b: Expr, ctx: Context, data: Value, x: real, y: real)
    requires Numeric(a, ctx, data, x) && Numeric(b, ctx, data, y)
    ensures Eval(Binary("<=", a, b), ctx, data) == Eval(Unary("!", Binary(">", a, b)), ctx, data)
    ensures Eval(Binary(">=", a, b), ctx, data) == Eval(Unary("!", Binary("<", a, b)), ctx, data)
    ensures Yields(Binary("<=", a, b), ctx, data, Bool(x <= y)) && Yields(Binary(">=", a, b), ctx, data, Bool(y <= x))
  {
    hide EvalAt, Height, Numeric;
    AtMost(a, b, ctx, data, x, y);
    AtLeast(a, b, ctx, data, x, y);
  }

  lemma AtMost(a: Expr, b: Expr, ctx: Context, data: Value, x: real, y: real)
    requires Numeric(a, ctx, data, x) && Numeric(b, ctx, data, y)
    ensures Eval(Binary("<=", a, b), ctx, data) == Eval(Unary("!", Binary(">", a, b)), ctx, data)
    ensures Yields(Binary("<=", a, b), ctx, data, Bool(x <= y))
  {
    hide EvalAt, Height;
    Operands("<=", a, b, ctx, data, 0);
    Operands(">", a, b, ctx, data, 1);
    NotAt(Binary(">", a, b), ctx, data, 0);
  }

  lemma AtLeast(a: Expr, b: Expr, ctx: Context, data: Value, x: real, y: real)
    requires Numeric(a, ctx, data, x) && Numeric(b, ctx, data, y)
    ensures Eval(Binary(">=", a, b), ctx, data) == Eval(Unary("!", Binary("<", a, b)), ctx, data)
    ensures Yields(Binary(">=", a, b), ctx, data, Bool(y <= x))
  {
    hide EvalAt, Height;
    Operands(">=", a, b, ctx, data, 0);
    Operands("<", a, b, ctx, data, 1);
    NotAt(Binary("<", a, b), ctx, data, 0);
  }

  /** Anything else than two numbers has no order, and is an error. */
  lemma OrderNeedsNumbers(op: string, a: Expr, b: Expr, ctx: Context, data: Value, v: Value, w: Value)
    requires op == "<" || op == "<=" || op == ">" || op == ">="
    requires Small(a) && Small(b) && Yields(a, ctx, data, v) && Yields(b, ctx, data, w)
    ensures Eval(Binary(op, a, b), ctx, data).Bad? <==> !(v.Number? && w.Number?)
  {
    hide EvalAt, Height;
    Operands(op, a, b, ctx, data, 0);
  }

  // ---- arithmetic ----

  function One(): Expr { Literal(Number(Int(1))) }

  lemma OneIs(ctx: Context, data: Value)
    ensures Numeric(One(), ctx, data, 1.0)
  {
    assert Height(One()) == 1;
  }

  lemma Successor(a: Expr, ctx: Context, data: Value, x: real)
    requires Numeric(a, ctx, data, x)
    ensures Yields(Binary("<", a, Binary("+", a, One())), ctx, data, YES)
  {
    hide EvalAt, Height;
    OneIs(ctx, data);
    Around("<", "+", a, One(), a, ctx, data);
  }

  /** Addition is the inverse of subtraction, and commutes. */
  lemma Sums(a: Expr, b: Expr, ctx: Context, data: Value, x: real, y: real)
    requires Numeric(a, ctx, data, x) && Numeric(b, ctx, data, y)
    ensures Yields(Binary("==", Binary("+", Binary("-", a, b), b), a), ctx, data, YES)
    ensures Yields(Binary("==", Binary("+", a, b), Binary("+", b, a)), ctx, data, YES)
  {
    hide EvalAt, Height;
    BinAt("==", Binary("+", Binary("-", a, b), b), a, ctx, data, 0);
    BinAt("+", Binary("-", a, b), b, ctx, data, 1);
    Operands("-", a, b, ctx, data, 2);
    AnyDepth(b, ctx, data, 2, 0);
    AnyDepth(a, ctx, data, 1, 0);
    BinAt("==", Binary("+", a, b), Binary("+", b, a), ctx, data, 0);
    Operands("+", a, b, ctx, data, 1);
    Operands("+", b, a, ctx, data, 1);
  }

  /** Multiplication is the inverse of division, commutes, and distributes over addition; dividing by
      zero is an error. */
  lemma Products(a: Expr, b: Expr, c: Expr, ctx: Context, data: Value, x: real, y: real, z: real)
    requires Numeric(a, ctx, data, x) && Numeric(b, ctx, data, y) && Numeric(c, ctx, data, z)
    ensures y != 0.0 ==> Yields(Binary("==", Binary("*", Binary("/", a, b), b), a), ctx, data, YES)
    ensures y == 0.0 <==> Eval(Binary("/", a, b), ctx, data).Bad?
    ensures Yields(Binary("==", Binary("*", a, b), Binary("*", b, a)), ctx, data, YES)
    ensures Yields(Binary("==", Binary("*", Binary("+", a, b), c), Binary("+", Binary("*", a, c), Binary("*", b, c))),
                   ctx, data, YES)
  {
    hide EvalAt, Height, Combine;
    Quotient(a, b, ctx, data, x, y);
    Distributes(a, b, c, ctx, data, x, y, z);
    Commutes(a, b, ctx, data, x, y);
  }

  lemma Commutes(a: Expr, b: Expr, ctx: Context, data: Value, x: real, y: real)
    requires Numeric(a, ctx, data, x) && Numeric(b, ctx, data, y)
    ensures Yields(Binary("==", Binary("*", a, b), Binary("*", b, a)), ctx, data, YES)
  {
    hide EvalAt, Height;
    BinAt("==", Binary("*", a, b), Binary("*", b, a), ctx, data, 0);
    Operands("*", a, b, ctx, data, 1);
    Operands("*", b, a, ctx, data, 1);
    assert x * y == y * x;
  }

  lemma Quotient(a: Expr, b: Expr, ctx: Context, data: Value, x: real, y: real)
    requires Numeric(a, ctx, data, x) && Numeric(b, ctx, data, y)
    ensures y != 0.0 ==> Yields(Binary("==", Binary("*", Binary("/", a, b), b), a), ctx, data, YES)
    ensures y == 0.0 <==> Eval(Binary("/", a, b), ctx, data).Bad?
  {
    hide EvalAt, Height;
    BinAt("==", Binary("*", Binary("/", a, b), b), a, ctx, data, 0);
    BinAt("*", Binary("/", a, b), b, ctx, data, 1);
    Operands("/", a, b, ctx, data, 2);
    Operands("/", a, b, ctx, data, 0);
    AnyDepth(b, ctx, data, 2, 0);
    AnyDepth(a, ctx, data, 1, 0);
    if y != 0.0 { assert x / y * y == x; }
  }

  lemma Distributes(a: Expr, b: Expr, c: Expr, ctx: Context, data: Value, x: real, y: real, z: real)
    requires Numeric(a, ctx, data, x) && Numeric(b, ctx, data, y) && Numeric(c, ctx, data, z)
    ensures Yields(Binary("==", Binary("*", Binary("+", a, b), c), Binary("+", Binary("*", a, c), Binary("*", b, c))),
                   ctx, data, YES)
  {
    hide EvalAt, Height;
    var sum, ac, bc := Binary("+", a, b), Binary("*", a, c), Binary("*", b, c);
    BinAt("==", Binary("*", sum, c), Binary("+", ac, bc), ctx, data, 0);
    BinAt("*", sum, c, ctx, data, 1);
    BinAt("+", ac, bc, ctx, data, 1);
    Operands("+", a, b, ctx, data, 2);
    Operands("*", a, c, ctx, data, 2);
    Operands("*", b, c, ctx, data, 2);
    AnyDepth(c, ctx, data, 2, 0);
    assert (x + y) * z == x * z + y * z;
  }

  /** A remainder is smaller than the divisor in magnitude, has the sign of the dividend, and differs
      from it by a whole multiple of the divisor; a remainder by zero is an error. */
  lemma Remainder(a: Expr, b: Expr, ctx: Context, data: Value, x: real, y: real)
    requires Numeric(a, ctx, data, x) && Numeric(b, ctx, data, y)
    ensures y == 0.0 <==> Eval(Binary("%", a, b), ctx, data).Bad?
    ensures y != 0.0 ==>
              var r := Eval(Binary("%", a, b), ctx, data).value;
              && r.Number?
              && Abs(r.n.Real()) < Abs(y)
              && (x >= 0.0 ==> r.n.Real() >= 0.0) && (x <= 0.0 ==> r.n.Real() <= 0.0)
              && IsMultiple(x - r.n.Real(), y)
  {
    hide EvalAt, Height, Trunc;
    Operands("%", a, b, ctx, data, 0);
    if y != 0.0 { Divides(x, y, x - y * Trunc(x / y)); }
  }

  function Abs(x: real): real { if x < 0.0 then -x else x }

  function Multiple(k: int, y: real): real { k as real * y }

  ghost predicate IsMultiple(x: real, y: real) { exists k: int :: x == Multiple(k, y) }

  predicate IsWhole(x: real) { x == x.Floor as real }

  lemma Divides(x: real, y: real, r: real)
    requires y != 0.0 && r == x - y * Trunc(x / y)
    ensures Abs(r) < Abs(y) && IsMultiple(x - r, y)
    ensures (x >= 0.0 ==> r >= 0.0) && (x <= 0.0 ==> r <= 0.0)
  {
    hide Trunc, Multiple, Abs;
    var q := x / y;
    var t := Trunc(q);
    TruncIs(q);
    Pieces(x, y, q, t, r);
    WholeMultiple(t, y, x - r);
    Signs(x, y, q);
    FractionSmall(q, t);
    Smaller(q - t, y, r);
  }

  lemma Pieces(x: real, y: real, q: real, t: real, r: real)
    requires y != 0.0 && q == x / y && r == x - y * t
    ensures r == (q - t) * y && x - r == y * t && q * y == x
  {
    assert q * y == x;
    assert (q - t) * y == q * y - t * y;
  }

  lemma WholeMultiple(t: real, y: real, p: real)
    requires IsWhole(t) && p == y * t
    ensures IsMultiple(p, y)
  {
    assert p == Multiple(t.Floor, y);
  }

  lemma Signs(x: real, y: real, q: real)
    requires y != 0.0 && q * y == x
    ensures x >= 0.0 ==> q == 0.0 || (q > 0.0 <==> y > 0.0)
    ensures x <= 0.0 ==> q == 0.0 || (q > 0.0 <==> y < 0.0)
  {
  }

  /** What truncation takes away has the sign of what it is taken from. */
  lemma FractionSmall(q: real, t: real)
    requires (q >= 0.0 ==> 0.0 <= t <= q) && (q <= 0.0 ==> q <= t <= 0.0)
    ensures (q >= 0.0 ==> q - t >= 0.0) && (q <= 0.0 ==> q - t <= 0.0)
  {
  }

  lemma Smaller(f: real, y: real, p: real)
    requires y != 0.0 && Abs(f) < 1.0 && p == f * y
    ensures Abs(p) < Abs(y)
    ensures f >= 0.0 && y > 0.0 ==> p >= 0.0
    ensures f <= 0.0 && y < 0.0 ==> p >= 0.0
    ensures f >= 0.0 && y < 0.0 ==> p <= 0.0
    ensures f <= 0.0 && y > 0.0 ==> p <= 0.0
  {
    if f >= 0.0 && y > 0.0 {
      Shrinks(f, y, p);
    } else if f >= 0.0 {
      Shrinks(f, -y, -p);
    } else if y > 0.0 {
      Shrinks(-f, y, -p);
    } else {
      Shrinks(-f, -y, p);
    }
  }

  lemma Shrinks(a: real, b: real, p: real)
    requires 0.0 <= a < 1.0 && b > 0.0 && p == a * b
    ensures 0.0 <= p < b
  {
    assert (1.0 - a) * b > 0.0;
    assert (1.0 - a) * b == b - a * b;
  }

  /** Truncation gives a whole number towards zero. */
  lemma TruncIs(x: real)
    ensures IsWhole(Trunc(x))
    ensures Abs(x - Trunc(x)) < 1.0
    ensures x >= 0.0 ==> 0.0 <= Trunc(x) <= x
    ensures x <= 0.0 ==> x <= Trunc(x) <= 0.0
  {
    if x < 0.0 { assert Trunc(x) == (-((-x).Floor)) as real; }
  }

  /** A minus sign in front is subtraction from zero. */
  lemma Minus(a: Expr, ctx: Context, data: Value, x: real)
    requires Numeric(a, ctx, data, x)
    ensures Yields(Binary("==", Binary("+", Unary("-", a), a), Literal(Number(Int(0)))), ctx, data, YES)
  {
    hide EvalAt, Height;
    var zero := Literal(Number(Int(0)));
    BinAt("==", Binary("+", Unary("-", a), a), zero, ctx, data, 0);
    BinAt("+", Unary("-", a), a, ctx, data, 1);
    NotAt(a, ctx, data, 2);
    AnyDepth(a, ctx, data, 3, 0);
    AnyDepth(a, ctx, data, 2, 0);
    LiteralAt(Number(Int(0)), ctx, data, 1);
  }

  lemma LiteralAt(v: Value, ctx: Context, data: Value, depth: nat)
    requires depth < MAX_PREDICATE_DEPTH
    ensures EvalAt(Literal(v), ctx, data, depth) == Good(v)
  {
  }

  // ---- logic ----

  /** Only false and null count as false. */
  lemma FalseOnes(v: Value)
    ensures !Truthy(v) <==> v == NO || v == Null
  {
  }

  /** Negation: true exactly of false and null, false of everything else, an error of an error. */
  lemma Negation(a: Expr, ctx: Context, data: Value)
    requires Small(a)
    ensures Eval(a, ctx, data).Bad? ==> Eval(Unary("!", a), ctx, data) == Eval(a, ctx, data)
    ensures Eval(a, ctx, data).Good? ==>
              var v := Eval(a, ctx, data).value;
              Yields(Unary("!", a), ctx, data, Bool(v == NO || v == Null))
  {
    hide EvalAt, Height;
    NotAt(a, ctx, data, 0);
    AnyDepth(a, ctx, data, 1, 0);
  }

  /** A side that decides keeps the other from being evaluated: its errors do not show. */
  lemma ShortCircuit(a: Expr, b: Expr, ctx: Context, data: Value, v: Value)
    requires Small(a) && Small(b) && Yields(a, ctx, data, v)
    ensures v == NO || v == Null ==> Yields(Binary("&&", a, b), ctx, data, NO)
    ensures v != NO && v != Null ==> Yields(Binary("||", a, b), ctx, data, YES)
    ensures v != NO && v != Null ==>
              Eval(Binary("&&", a, b), ctx, data) == Eval(Unary("!", Unary("!", b)), ctx, data)
    ensures v == NO || v == Null ==>
              Eval(Binary("||", a, b), ctx, data) == Eval(Unary("!", Unary("!", b)), ctx, data)
  {
    hide EvalAt, Height;
    Operands("&&", a, b, ctx, data, 0);
    Operands("||", a, b, ctx, data, 0);
    NotAt(Unary("!", b), ctx, data, 0);
    NotAt(b, ctx, data, 1);
    AnyDepth(b, ctx, data, 2, 0);
  }

  /** De Morgan, errors and short circuits included. */
  lemma DeMorgan(a: Expr, b: Expr, ctx: Context, data: Value)
    requires Small(a) && Small(b)
    ensures Eval(Unary("!", Binary("&&", a, b)), ctx, data) ==
            Eval(Binary("||", Unary("!", a), Unary("!", b)), ctx, data)
    ensures Eval(Unary("!", Binary("||", a, b)), ctx, data) ==
            Eval(Binary("&&", Unary("!", a), Unary("!", b)), ctx, data)
  {
    hide EvalAt, Height;
    NotAt(Binary("&&", a, b), ctx, data, 0);
    NotAt(Binary("||", a, b), ctx, data, 0);
    Operands("&&", a, b, ctx, data, 1);
    Operands("||", a, b, ctx, data, 1);
    BinAt("||", Unary("!", a), Unary("!", b), ctx, data, 0);
    BinAt("&&", Unary("!", a), Unary("!", b), ctx, data, 0);
    NotAt(a, ctx, data, 1);
    NotAt(b, ctx, data, 1);
    AnyDepth(a, ctx, data, 2, 0);
    AnyDepth(b, ctx, data, 2, 0);
  }

  // ---- equality and membership ----

  /** Equality: numbers by value, everything else as it stands; and its negation. */
  lemma Equality(a: Expr, b: Expr, ctx: Context, data: Value, v: Value, w: Value)
    requires Small(a) && Small(b) && Yields(a, ctx, data, v) && Yields(b, ctx, data, w)
    ensures Yields(Binary("==", a, b), ctx, data,
                   Bool(v == w || (v.Number? && w.Number? && v.n.Real() == w.n.Real())))
    ensures Eval(Binary("!=", a, b), ctx, data) == Eval(Unary("!", Binary("==", a, b)), ctx, data)
  {
    hide EvalAt, Height;
    Operands("==", a, b, ctx, data, 0);
    Operands("==", a, b, ctx, data, 1);
    Operands("!=", a, b, ctx, data, 0);
    NotAt(Binary("==", a, b), ctx, data, 0);
  }

  /** Membership is the disjunction of the equalities with the members, and `not in` its negation; the
      right side must be a list, and not too long a one. */
  lemma Membership(a: Expr, b: Expr, ctx: Context, data: Value, v: Value, w: Value)
    requires Small(a) && Small(b) && Yields(a, ctx, data, v) && Yields(b, ctx, data, w)
    ensures Eval(Binary("in", a, b), ctx, data).Bad? <==> !w.Array? || |w.items| > 1000
    ensures w.Array? && |w.items| <= 1000 ==>
              Yields(Binary("in", a, b), ctx, data, Bool(exists i ::
                0 <= i < |w.items| && Yields(Binary("==", a, Literal(w.items[i])), ctx, data, YES)))
    ensures Eval(Binary("not in", a, b), ctx, data) == Eval(Unary("!", Binary("in", a, b)), ctx, data)
  {
    hide EvalAt, Height, ValuesEqual;
    Operands("in", a, b, ctx, data, 0);
    Operands("in", a, b, ctx, data, 1);
    Operands("not in", a, b, ctx, data, 0);
    NotAt(Binary("in", a, b), ctx, data, 0);
    if w.Array? {
      forall i | 0 <= i < |w.items|
        ensures Yields(Binary("==", a, Literal(w.items[i])), ctx, data, YES) <==> ValuesEqual(v, w.items[i])
      {
        EqualsItem(a, ctx, data, v, w.items[i]);
      }
    }
  }

  lemma EqualsItem(a: Expr, ctx: Context, data: Value, v: Value, item: Value)
    requires Small(a) && Yields(a, ctx, data, v)
    ensures Yields(Binary("==", a, Literal(item)), ctx, data, YES) <==> ValuesEqual(v, item)
  {
    hide EvalAt, Height, ValuesEqual;
    BinAt("==", a, Literal(item), ctx, data, 0);
    AnyDepth(a, ctx, data, 1, 0);
    LiteralAt(item, ctx, data, 1);
  }

  // ---- text ----

  /** What the text tests say; anything but two texts fails them. */
  lemma TextTests(a: Expr, b: Expr, ctx: Context, data: Value, v: Value, w: Value)
    requires Small(a) && Small(b) && Yields(a, ctx, data, v) && Yields(b, ctx, data, w)
    ensures Yields(Binary("starts_with", a, b), ctx, data,
                   Bool(v.Text? && w.Text? && exists rest: string :: v.s == w.s + rest))
    ensures Yields(Binary("ends_with", a, b), ctx, data,
                   Bool(v.Text? && w.Text? && exists front: string :: v.s == front + w.s))
    ensures Yields(Binary("contains", a, b), ctx, data,
                   Bool(v.Text? && w.Text? && exists front: string, rest: string :: v.s == front + w.s + rest))
  {
    hide EvalAt, Height, StartsWith, EndsWith, Contains;
    Operands("starts_with", a, b, ctx, data, 0);
    Operands("ends_with", a, b, ctx, data, 0);
    Operands("contains", a, b, ctx, data, 0);
    if v.Text? && w.Text? {
      StartsIs(v.s, w.s);
      EndsIs(v.s, w.s);
      ContainsIs(v.s, w.s);
    }
  }

  lemma StartsIs(s: string, t: string)
    ensures StartsWith(s, t) <==> exists rest: string :: s == t + rest
  {
    if StartsWith(s, t) { assert s == t + s[|t|..]; }
  }

  lemma EndsIs(s: string, t: string)
    ensures EndsWith(s, t) <==> exists front: string :: s == front + t
  {
    if EndsWith(s, t) { assert s == s[..|s| - |t|] + t; }
    if front: string :| s == front + t { assert s[|s| - |t|..] == t; }
  }

  lemma ContainsIs(s: string, t: string)
    ensures Contains(s, t) <==> exists front: string, rest: string :: s == front + t + rest
  {
    if Contains(s, t) {
      var i :| 0 <= i <= |s| && OccursAt(s, t, i);
      assert s == s[..i] + t + s[i + |t|..];
    }
    if front: string, rest: string :| s == front + t + rest { assert OccursAt(s, t, |front|); }
  }

  /** Adding two texts joins them, unless the result would be too long. */
  lemma Joining(a: Expr, b: Expr, ctx: Context, data: Value, s: string, t: string)
    requires Small(a) && Small(b) && Yields(a, ctx, data, Text(s)) && Yields(b, ctx, data, Text(t))
    ensures Eval(Binary("+", a, b), ctx, data) ==
            if Utf8Length(s) + Utf8Length(t) <= 65536 then Good(Text(s + t)) else Bad(Unsupported)
  {
    hide EvalAt, Height, Utf8Length;
    Operands("+", a, b, ctx, data, 0);
  }

  // ---- rows ----

  function LowerOf(x: Expr): Expr { Leaf("call").(name := Some("lower"), args := [x]) }

  /** `lower` maps text character by character, null to nothing, and anything else by its text form. */
  lemma Lowering(a: Expr, ctx: Context, data: Value, v: Value)
    requires Small(a) && Yields(a, ctx, data, v)
    ensures var o := Eval(LowerOf(a), ctx, data);
            && o.Good? && o.value.Text?
            && (v == Null ==> o.value.s == "")
            && (v == YES ==> o.value.s == "true") && (v == NO ==> o.value.s == "false")
            && var s := if v.Text? then v.s else ctx.render(v);
               !v.Null? && !v.Bool? ==>
                 |o.value.s| == |s| && forall i :: 0 <= i < |s| ==> o.value.s[i] == ctx.lower(s[i])
  {
    hide Height, Combine, Negate, Get, LitValue;
    AnyDepth(a, ctx, data, 1, 0);
  }

  /** A field of the row, or null where there is none. */
  lemma FieldIs(ctx: Context, data: Value, field: string, depth: nat)
    requires depth < MAX_PREDICATE_DEPTH
    ensures var o := EvalAt(FieldOf(ctx, field), ctx, data, depth);
            && (data.Object? && field in data.fields ==> o == Good(data.fields[field]))
            && (!(data.Object? && field in data.fields) ==> o == Good(Null))
  {
  }

  /** A literal in the type it declares: whole numbers towards zero, booleans, text, or as it is. */
  lemma LiteralIs(v: Value, ctx: Context, data: Value)
    ensures Yields(Literal(v), ctx, data, v)
    ensures v.Number? && v.n.Int? ==> Yields(Literal(v).(vtype := Some("int")), ctx, data, v)
    ensures v.Number? && v.n.Frac? ==>
              exists t: real :: Yields(Literal(v).(vtype := Some("int")), ctx, data, Number(Frac(t)))
                                && IsWhole(t) && Abs(v.n.f - t) < 1.0 && Abs(t) <= Abs(v.n.f)
    ensures !v.Number? ==> Yields(Literal(v).(vtype := Some("int")), ctx, data, Null)
    ensures Yields(Literal(v).(vtype := Some("bool")), ctx, data, Bool(v == YES))
    ensures Yields(Literal(v).(vtype := Some("text")), ctx, data, if v.Text? then v else Text(ctx.render(v)))
  {
    hide Trunc;
    if v.Number? && v.n.Frac? {
      TruncIs(v.n.f);
      assert Yields(Literal(v).(vtype := Some("int")), ctx, data, Number(Frac(Trunc(v.n.f))));
    }
  }
}
