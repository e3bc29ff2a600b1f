/** What the planner extracts, stated over the conjuncts of a predicate: nothing usable is passed over. */
module Extraction {
  import opened Entries
  import opened Exprs
  import opened Planner

  /** `r` is the first value of the list, or there is none. */
  ghost predicate FirstIs<T(!new)>(s: seq<Option<T>>, r: Option<T>) {
    && (r.None? ==> forall i :: 0 <= i < |s| ==> s[i].None?)
    && (r.Some? ==> exists i :: 0 <= i < |s| && s[i] == r && forall j :: 0 <= j < i ==> s[j].None?)
  }

  lemma FirstJoins<T(!new)>(a: seq<Option<T>>, b: seq<Option<T>>, p: Option<T>, q: Option<T>)
    requires FirstIs(a, p) && FirstIs(b, q)
    ensures FirstIs(a + b, OrElse(p, q))
  {
    var s := a + b;
    if p.Some? {
      var i :| 0 <= i < |a| && a[i] == p && forall j :: 0 <= j < i ==> a[j].None?;
      assert s[i] == p && forall j :: 0 <= j < i ==> s[j] == a[j];
    } else if q.Some? {
      var i :| 0 <= i < |b| && b[i] == q && forall j :: 0 <= j < i ==> b[j].None?;
      assert s[|a| + i] == q && forall j :: 0 <= j < |a| + i ==> s[j] == if j < |a| then a[j] else b[j - |a|];
    }
  }

  /** A reference to the field of the row. */
  predicate Names(e: Expr, ctx: Context, field: string) {
    && e.kind == "get" && e.field == Some(field)
    && e.obj.Some? && e.obj.value.kind == "ref" && e.obj.value.name == Some(ctx.item)
  }

  /** A test within reach, by this operator. */
  predicate Tests(c: Conjunct, op: string) {
    c.depth < MAX_PREDICATE_DEPTH && c.expr.kind == "bin" && c.expr.op == Some(op) && c.expr.l.Some? && c.expr.r.Some?
  }

  /** The value a conjunct requires of the field: the literal on the other side of an equality. */
  function Demands(c: Conjunct, ctx: Context, field: string): Option<Value> {
    if !Tests(c, "==") then None
    else
      var l, r := c.expr.l.value, c.expr.r.value;
      if Names(l, ctx, field) && r.kind == "lit" && LitValue(r, ctx) != Null then Some(LitValue(r, ctx))
      else if Names(r, ctx, field) && l.kind == "lit" && LitValue(l, ctx) != Null then Some(LitValue(l, ctx))
      else None
  }

  predicate Words(e: Expr, ctx: Context) { e.kind == "lit" && LitValue(e, ctx).Text? && LitValue(e, ctx).s != "" }

  /** The prefix a conjunct requires of the field. */
  function Begins(c: Conjunct, ctx: Context, field: string): Option<string> {
    if Tests(c, "starts_with") && Names(c.expr.l.value, ctx, field) && Words(c.expr.r.value, ctx)
    then Some(LitValue(c.expr.r.value, ctx).s) else None
  }

  /** The text a conjunct requires somewhere in the field, or in the field lowered. */
  function Holds(c: Conjunct, ctx: Context, field: string, lowered: bool): Option<string> {
    if !Tests(c, "starts_with") && !Tests(c, "ends_with") && !Tests(c, "contains") then None
    else
      var l, r := c.expr.l.value, c.expr.r.value;
      var named := if !lowered then Names(l, ctx, field)
                   else l.kind == "call" && l.name == Some("lower") && |l.args| == 1 && Names(l.args[0], ctx, field);
      if named && Words(r, ctx) then Some(LitValue(r, ctx).s) else None
  }

  function EachDemand(cs: seq<Conjunct>, ctx: Context, field: string): seq<Option<Value>> {
    seq(|cs|, i requires 0 <= i < |cs| => Demands(cs[i], ctx, field))
  }

  function EachBegin(cs: seq<Conjunct>, ctx: Context, field: string): seq<Option<string>> {
    seq(|cs|, i requires 0 <= i < |cs| => Begins(cs[i], ctx, field))
  }

  /** The equality extracted is the first the conjuncts contain, and none only if there is none. */
  lemma {:induction false} EqualityExact(e: Expr, ctx: Context, field: string, depth: nat)
    ensures FirstIs(EachDemand(Conjuncts(e, depth), ctx, field), EqualityLiteralAt(e, ctx, field, depth))
    decreases e
  {
    hide Demands, FirstIs, MatchEquality;
    if depth < MAX_PREDICATE_DEPTH && IsAnd(e) {
      var l, r := e.l.value, e.r.value;
      var a, b := Conjuncts(l, depth + 1), Conjuncts(r, depth + 1);
      EqualityExact(l, ctx, field, depth + 1);
      EqualityExact(r, ctx, field, depth + 1);
      FirstJoins(EachDemand(a, ctx, field), EachDemand(b, ctx, field),
                 EqualityLiteralAt(l, ctx, field, depth + 1), EqualityLiteralAt(r, ctx, field, depth + 1));
      assert EachDemand(a + b, ctx, field) == EachDemand(a, ctx, field) + EachDemand(b, ctx, field);
    } else {
      OneDemand(e, ctx, field, depth);
      FirstAlone(EachDemand([Conjunct(e, depth)], ctx, field));
    }
  }

  lemma OneDemand(e: Expr, ctx: Context, field: string, depth: nat)
    requires depth >= MAX_PREDICATE_DEPTH || !IsAnd(e)
    ensures Demands(Conjunct(e, depth), ctx, field) == EqualityLiteralAt(e, ctx, field, depth)
  {
    hide LitValue;
  }

  lemma FirstAlone<T(!new)>(s: seq<Option<T>>)
    requires |s| == 1
    ensures FirstIs(s, s[0])
  {
  }

  /** The same for a prefix. */
  lemma {:induction false} PrefixExact(e: Expr, ctx: Context, field: string, depth: nat)
    ensures FirstIs(EachBegin(Conjuncts(e, depth), ctx, field), PrefixLiteralAt(e, ctx, field, depth))
    decreases e
  {
    hide Begins, FirstIs, Needle;
    if depth < MAX_PREDICATE_DEPTH && IsAnd(e) {
      var l, r := e.l.value, e.r.value;
      var a, b := Conjuncts(l, depth + 1), Conjuncts(r, depth + 1);
      PrefixExact(l, ctx, field, depth + 1);
      PrefixExact(r, ctx, field, depth + 1);
      FirstJoins(EachBegin(a, ctx, field), EachBegin(b, ctx, field),
                 PrefixLiteralAt(l, ctx, field, depth + 1), PrefixLiteralAt(r, ctx, field, depth + 1));
      assert EachBegin(a + b, ctx, field) == EachBegin(a, ctx, field) + EachBegin(b, ctx, field);
    } else {
      OneBegin(e, ctx, field, depth);
      FirstAlone(EachBegin([Conjunct(e, depth)], ctx, field));
    }
  }

  lemma OneBegin(e: Expr, ctx: Context, field: string, depth: nat)
    requires depth >= MAX_PREDICATE_DEPTH || !IsAnd(e)
    ensures Begins(Conjunct(e, depth), ctx, field) == PrefixLiteralAt(e, ctx, field, depth)
  {
    hide LitValue;
  }

  ghost predicate SomeHolds(cs: seq<Conjunct>, ctx: Context, field: string, lowered: bool, t: string) {
    exists i :: 0 <= i < |cs| && Holds(cs[i], ctx, field, lowered) == Some(t)
  }

  lemma SomeHoldsJoins(a: seq<Conjunct>, b: seq<Conjunct>, ctx: Context, field: string, lowered: bool, t: string)
    ensures SomeHolds(a + b, ctx, field, lowered, t) <==>
            SomeHolds(a, ctx, field, lowered, t) || SomeHolds(b, ctx, field, lowered, t)
  {
    hide Holds;
    var s := a + b;
    if i :| 0 <= i < |a| && Holds(a[i], ctx, field, lowered) == Some(t) { assert s[i] == a[i]; }
    if i :| 0 <= i < |b| && Holds(b[i], ctx, field, lowered) == Some(t) { assert s[|a| + i] == b[i]; }
  }

  /** Every substring a conjunct requires is extracted, and nothing else is. */
  lemma {:induction false} SubstringsExact(e: Expr, ctx: Context, field: string, lowered: bool, depth: nat, t: string)
    ensures t in SubstringLiterals(e, ctx, field, lowered, depth) <==>
            SomeHolds(Conjuncts(e, depth), ctx, field, lowered, t)
    decreases e
  {
    hide LitValue, Holds, SomeHolds;
    if depth < MAX_PREDICATE_DEPTH && IsAnd(e) {
      var a, b := Conjuncts(e.l.value, depth + 1), Conjuncts(e.r.value, depth + 1);
      SubstringsExact(e.l.value, ctx, field, lowered, depth + 1, t);
      SubstringsExact(e.r.value, ctx, field, lowered, depth + 1, t);
      SomeHoldsJoins(a, b, ctx, field, lowered, t);
    } else {
      OneHolds(e, ctx, field, lowered, depth, t);
    }
  }

  lemma OneHolds(e: Expr, ctx: Context, field: string, lowered: bool, depth: nat, t: string)
    requires depth >= MAX_PREDICATE_DEPTH || !IsAnd(e)
    ensures t in SubstringLiterals(e, ctx, field, lowered, depth) <==>
            SomeHolds([Conjunct(e, depth)], ctx, field, lowered, t)
  {
    hide LitValue;
    var cs := [Conjunct(e, depth)];
    assert cs[0] == Conjunct(e, depth);
    assert SomeHolds(cs, ctx, field, lowered, t) <==> Holds(cs[0], ctx, field, lowered) == Some(t);
  }
}
