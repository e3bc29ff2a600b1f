/** What an index may narrow a query by: literals a predicate requires of one field. */
module Planner {
  import opened Entries
  import opened Exprs

  predicate IsFieldAccess(e: Expr, item: string, field: string) {
    e.kind == "get" && e.field == Some(field) && e.obj.Some?
    && e.obj.value.kind == "ref" && e.obj.value.name == Some(item)
  }

  predicate IsLoweredField(e: Expr, item: string, field: string) {
    e.kind == "call" && e.name == Some("lower") && |e.args| == 1 && IsFieldAccess(e.args[0], item, field)
  }

  /** `<field> == <literal>`, in that order. A null literal is not usable. */
  function MatchEquality(access: Expr, literal: Expr, ctx: Context, field: string): Option<Value> {
    if !IsFieldAccess(access, ctx.item, field) || literal.kind != "lit" then None
    else
      var value := LitValue(literal, ctx);
      if value == Null then None else Some(value)
  }

  function OrElse<T>(a: Option<T>, b: Option<T>): Option<T> { if a.Some? then a else b }

  function EqualityLiteralAt(e: Expr, ctx: Context, field: string, depth: nat): Option<Value> {
    if depth >= MAX_PREDICATE_DEPTH || e.kind != "bin" || e.l.None? || e.r.None? then None
    else if e.op == Some("&&") then
      OrElse(EqualityLiteralAt(e.l.value, ctx, field, depth + 1), EqualityLiteralAt(e.r.value, ctx, field, depth + 1))
    else if e.op == Some("==") then
      OrElse(MatchEquality(e.l.value, e.r.value, ctx, field), MatchEquality(e.r.value, e.l.value, ctx, field))
    else None
  }

  /** The non-empty text literal a string test on some side compares with. */
  function Needle(literal: Expr, ctx: Context): Option<string> {
    if literal.kind != "lit" then None
    else
      var value := LitValue(literal, ctx);
      if value.Text? && value.s != "" then Some(value.s) else None
  }

  function PrefixLiteralAt(e: Expr, ctx: Context, field: string, depth: nat): Option<string> {
    if depth >= MAX_PREDICATE_DEPTH || e.kind != "bin" || e.l.None? || e.r.None? then None
    else if e.op == Some("&&") then
      OrElse(PrefixLiteralAt(e.l.value, ctx, field, depth + 1), PrefixLiteralAt(e.r.value, ctx, field, depth + 1))
    else if e.op == Some("starts_with") && IsFieldAccess(e.l.value, ctx.item, field) then Needle(e.r.value, ctx)
    else None
  }

  predicate Target(e: Expr, ctx: Context, field: string, lowered: bool) {
    if lowered then IsLoweredField(e, ctx.item, field) else IsFieldAccess(e, ctx.item, field)
  }

  function SubstringLiterals(e: Expr, ctx: Context, field: string, lowered: bool, depth: nat): seq<string> {
    if depth >= MAX_PREDICATE_DEPTH || e.kind != "bin" || e.l.None? || e.r.None? || e.op.None? then []
    else if e.op.value == "&&" then
      SubstringLiterals(e.l.value, ctx, field, lowered, depth + 1)
      + SubstringLiterals(e.r.value, ctx, field, lowered, depth + 1)
    else if StringTest(e.op.value) && Target(e.l.value, ctx, field, lowered) then
      var needle := Needle(e.r.value, ctx);
      if needle.Some? then [needle.value] else []
    else []
  }

  /** Collect them by pushing to a buffer. */
  method CollectSubstrings(e: Expr, ctx: Context, field: string, lowered: bool, depth: nat, found: seq<string>)
    returns (out: seq<string>)
    ensures out == found + SubstringLiterals(e, ctx, field, lowered, depth)
    decreases e
  {
    out := found;
    if depth >= MAX_PREDICATE_DEPTH || e.kind != "bin" { return; }
    if e.l.None? || e.r.None? || e.op.None? { return; }
    if e.op.value == "&&" {
      out := CollectSubstrings(e.l.value, ctx, field, lowered, depth + 1, out);
      out := CollectSubstrings(e.r.value, ctx, field, lowered, depth + 1, out);
    } else if StringTest(e.op.value) {
      if e.r.value.kind != "lit" || !Target(e.l.value, ctx, field, lowered) { return; }
      var value := LitValue(e.r.value, ctx);
      if value.Text? && value.s != "" { out := out + [value.s]; }
    }
  }

  // ---- narrowing loses no answer ----

  /** The row passes: evaluation succeeds with a truthy value. */
  ghost predicate Passes(o: Outcome) { o.Good? && Truthy(o.value) }

  lemma AccessEvaluates(e: Expr, ctx: Context, data: Value, field: string, depth: nat)
    requires IsFieldAccess(e, ctx.item, field) && depth < MAX_PREDICATE_DEPTH
    ensures EvalAt(e, ctx, data, depth) == Good(Get(data, field))
  {
  }

  lemma LiteralEvaluates(e: Expr, ctx: Context, data: Value, depth: nat)
    requires e.kind == "lit" && depth < MAX_PREDICATE_DEPTH
    ensures EvalAt(e, ctx, data, depth) == Good(LitValue(e, ctx))
  {
  }

  lemma LoweredEvaluates(e: Expr, ctx: Context, data: Value, field: string, depth: nat)
    requires IsLoweredField(e, ctx.item, field) && depth + 1 < MAX_PREDICATE_DEPTH
    ensures EvalAt(e, ctx, data, depth) == Good(Text(LowerText(Get(data, field), ctx)))
  {
    AccessEvaluates(e.args[0], ctx, data, field, depth + 1);
  }

  /** A passing conjunction passes on both sides. */
  lemma BothPass(e: Expr, ctx: Context, data: Value, depth: nat)
    requires e.kind == "bin" && e.l.Some? && e.r.Some? && e.op == Some("&&")
    requires Passes(EvalAt(e, ctx, data, depth))
    ensures Passes(EvalAt(e.l.value, ctx, data, depth + 1)) && Passes(EvalAt(e.r.value, ctx, data, depth + 1))
  {
  }

  /** What a passing comparison of two evaluated sides was. */
  lemma SidesOf(e: Expr, ctx: Context, data: Value, depth: nat)
    requires e.kind == "bin" && e.l.Some? && e.r.Some? && e.op.Some? && e.op.value != "&&" && e.op.value != "||"
    requires Passes(EvalAt(e, ctx, data, depth))
    ensures depth + 1 < MAX_PREDICATE_DEPTH
    ensures var lv, rv := EvalAt(e.l.value, ctx, data, depth + 1), EvalAt(e.r.value, ctx, data, depth + 1);
            lv.Good? && rv.Good? && EvalAt(e, ctx, data, depth) == EvalBinOp(e.op.value, lv.value, rv.value)
  {
    hide EvalBinOp;
    TooDeepNow(e.l.value, ctx, data, depth + 1);
  }

  lemma TooDeepNow(e: Expr, ctx: Context, data: Value, depth: nat)
    ensures depth >= MAX_PREDICATE_DEPTH ==> EvalAt(e, ctx, data, depth) == Bad(TooDeep)
  {
  }

  /** If the planner extracts an equality, every row that passes holds an equal value. */
  lemma {:induction false} EqualitySound(e: Expr, ctx: Context, data: Value, field: string, d: nat, depth: nat)
    requires EqualityLiteralAt(e, ctx, field, d).Some? && Passes(EvalAt(e, ctx, data, depth))
    ensures ValuesEqual(Get(data, field), EqualityLiteralAt(e, ctx, field, d).value)
    decreases e
  {
    hide EvalAt, ValuesEqual;
    if e.op == Some("&&") {
      BothPass(e, ctx, data, depth);
      if EqualityLiteralAt(e.l.value, ctx, field, d + 1).Some? {
        EqualitySound(e.l.value, ctx, data, field, d + 1, depth + 1);
      } else {
        EqualitySound(e.r.value, ctx, data, field, d + 1, depth + 1);
      }
    } else {
      SidesOf(e, ctx, data, depth);
      if MatchEquality(e.l.value, e.r.value, ctx, field).Some? {
        AccessEvaluates(e.l.value, ctx, data, field, depth + 1);
        LiteralEvaluates(e.r.value, ctx, data, depth + 1);
      } else {
        AccessEvaluates(e.r.value, ctx, data, field, depth + 1);
        LiteralEvaluates(e.l.value, ctx, data, depth + 1);
        EqualSymmetric(Get(data, field), LitValue(e.l.value, ctx));
      }
    }
  }

  lemma EqualSymmetric(l: Value, r: Value)
    ensures ValuesEqual(l, r) == ValuesEqual(r, l)
  {
  }

  /** If it extracts a prefix, every passing row's field is text that starts with it. */
  lemma {:induction false} PrefixSound(e: Expr, ctx: Context, data: Value, field: string, d: nat, depth: nat)
    requires PrefixLiteralAt(e, ctx, field, d).Some? && Passes(EvalAt(e, ctx, data, depth))
    ensures Get(data, field).Text? && StartsWith(Get(data, field).s, PrefixLiteralAt(e, ctx, field, d).value)
    decreases e
  {
    hide EvalAt;
    if e.op == Some("&&") {
      BothPass(e, ctx, data, depth);
      if PrefixLiteralAt(e.l.value, ctx, field, d + 1).Some? {
        PrefixSound(e.l.value, ctx, data, field, d + 1, depth + 1);
      } else {
        PrefixSound(e.r.value, ctx, data, field, d + 1, depth + 1);
      }
    } else {
      SidesOf(e, ctx, data, depth);
      AccessEvaluates(e.l.value, ctx, data, field, depth + 1);
      LiteralEvaluates(e.r.value, ctx, data, depth + 1);
    }
  }

  /** The text the substring tests of a field run over. */
  function Haystack(data: Value, ctx: Context, field: string, lowered: bool): Value {
    if lowered then Text(LowerText(Get(data, field), ctx)) else Get(data, field)
  }

  /** If it extracts substrings of the field, or of the lowered field, every passing row's text
      contains each of them. */
  lemma {:induction false} SubstringsSound(e: Expr, ctx: Context, data: Value, field: string, lowered: bool, d: nat,
                                           depth: nat, k: nat)
    requires k < |SubstringLiterals(e, ctx, field, lowered, d)| && Passes(EvalAt(e, ctx, data, depth))
    ensures var hay := Haystack(data, ctx, field, lowered);
            hay.Text? && Contains(hay.s, SubstringLiterals(e, ctx, field, lowered, d)[k])
    decreases e
  {
    hide EvalAt, LowerText, Contains;
    if e.op.value == "&&" {
      BothPass(e, ctx, data, depth);
      var n := |SubstringLiterals(e.l.value, ctx, field, lowered, d + 1)|;
      if k < n {
        SubstringsSound(e.l.value, ctx, data, field, lowered, d + 1, depth + 1, k);
      } else {
        SubstringsSound(e.r.value, ctx, data, field, lowered, d + 1, depth + 1, k - n);
      }
    } else {
      SidesOf(e, ctx, data, depth);
      LiteralEvaluates(e.r.value, ctx, data, depth + 1);
      TargetEvaluates(e.l.value, ctx, data, field, lowered, depth + 1);
      var hay, needle := Haystack(data, ctx, field, lowered), LitValue(e.r.value, ctx);
      FoundContains(e.op.value, hay.s, needle.s);
    }
  }

  lemma TargetEvaluates(e: Expr, ctx: Context, data: Value, field: string, lowered: bool, depth: nat)
    requires Target(e, ctx, field, lowered) && depth < MAX_PREDICATE_DEPTH && EvalAt(e, ctx, data, depth).Good?
    ensures EvalAt(e, ctx, data, depth) == Good(Haystack(data, ctx, field, lowered))
  {
    if lowered {
      if depth + 1 < MAX_PREDICATE_DEPTH { LoweredEvaluates(e, ctx, data, field, depth); }
    } else {
      AccessEvaluates(e, ctx, data, field, depth);
    }
  }

  /** Prefixes and suffixes are substrings. */
  lemma FoundContains(op: string, s: string, t: string)
    requires StringTest(op) && Found(op, s, t)
    ensures Contains(s, t)
  {
    if op == "starts_with" {
      assert OccursAt(s, t, 0);
    } else if op == "ends_with" {
      assert OccursAt(s, t, |s| - |t|);
    }
  }

  // ---- the leftmost conjunct ----

  /** The equality a conjunction tests first, if it is one on this field. */
  function LeftmostEquality(e: Expr, ctx: Context, field: string): Option<Value> {
    if e.kind != "bin" || e.l.None? || e.r.None? then None
    else if e.op == Some("&&") then LeftmostEquality(e.l.value, ctx, field)
    else if e.op == Some("==") then
      OrElse(MatchEquality(e.l.value, e.r.value, ctx, field), MatchEquality(e.r.value, e.l.value, ctx, field))
    else None
  }

  lemma BinEvaluates(e: Expr, ctx: Context, data: Value, depth: nat)
    requires e.kind == "bin" && e.l.Some? && e.r.Some? && e.op.Some? && depth < MAX_PREDICATE_DEPTH
    ensures EvalAt(e, ctx, data, depth) ==
            Combine(e.op.value, EvalAt(e.l.value, ctx, data, depth + 1), EvalAt(e.r.value, ctx, data, depth + 1))
  {
    hide Combine;
  }

  /** When the equality comes first in a predicate that fits the depth bound, it is the literal
      the planner picks, and a row that fails it evaluates to false, never to an error. */
  lemma {:induction false} LeftmostDecides(e: Expr, ctx: Context, data: Value, field: string, depth: nat)
    requires LeftmostEquality(e, ctx, field).Some? && depth + Height(e) <= MAX_PREDICATE_DEPTH
    ensures EqualityLiteralAt(e, ctx, field, depth) == LeftmostEquality(e, ctx, field)
    ensures !ValuesEqual(Get(data, field), LeftmostEquality(e, ctx, field).value) ==>
              EvalAt(e, ctx, data, depth) == Good(Bool(false))
    decreases e
  {
    hide Height, ValuesEqual, EvalAt, LitValue;
    HeightParts(e);
    var l, r := e.l.value, e.r.value;
    BinEvaluates(e, ctx, data, depth);
    if e.op == Some("&&") {
      LeftmostDecides(l, ctx, data, field, depth + 1);
    } else {
      HeightParts(l);
      if MatchEquality(l, r, ctx, field).Some? {
        AccessEvaluates(l, ctx, data, field, depth + 1);
        LiteralEvaluates(r, ctx, data, depth + 1);
      } else {
        AccessEvaluates(r, ctx, data, field, depth + 1);
        LiteralEvaluates(l, ctx, data, depth + 1);
        EqualSymmetric(Get(data, field), LitValue(l, ctx));
      }
    }
  }

  // ---- the conjuncts in front of the equality ----

  /** A part of a predicate, at the depth evaluation reaches it. */
  datatype Conjunct = Conjunct(expr: Expr, depth: nat)

  predicate IsAnd(e: Expr) { e.kind == "bin" && e.l.Some? && e.r.Some? && e.op == Some("&&") }

  /** The parts of a conjunction, in the order they are evaluated. */
  function Conjuncts(e: Expr, depth: nat): seq<Conjunct> {
    if depth < MAX_PREDICATE_DEPTH && IsAnd(e) then
      Conjuncts(e.l.value, depth + 1) + Conjuncts(e.r.value, depth + 1)
    else [Conjunct(e, depth)]
  }

  /** The parts evaluated before the equality the planner extracts. */
  function InFront(e: Expr, ctx: Context, field: string, depth: nat): seq<Conjunct>
    requires EqualityLiteralAt(e, ctx, field, depth).Some?
  {
    if e.op != Some("&&") then []
    else if EqualityLiteralAt(e.l.value, ctx, field, depth + 1).Some? then InFront(e.l.value, ctx, field, depth + 1)
    else Conjuncts(e.l.value, depth + 1) + InFront(e.r.value, ctx, field, depth + 1)
  }

  /** How deep that equality sits. */
  function EqualityDepth(e: Expr, ctx: Context, field: string, depth: nat): nat
    requires EqualityLiteralAt(e, ctx, field, depth).Some?
  {
    if e.op != Some("&&") then depth
    else if EqualityLiteralAt(e.l.value, ctx, field, depth + 1).Some? then
        EqualityDepth(e.l.value, ctx, field, depth + 1)
    else EqualityDepth(e.r.value, ctx, field, depth + 1)
  }

  ghost predicate AllPass(cs: seq<Conjunct>, ctx: Context, data: Value) {
    forall i :: 0 <= i < |cs| ==> Passes(EvalAt(cs[i].expr, ctx, data, cs[i].depth))
  }

  /** Part `i` is the first that does not pass. */
  ghost predicate StopsAt(cs: seq<Conjunct>, ctx: Context, data: Value, i: nat) {
    && i < |cs| && AllPass(cs[..i], ctx, data)
    && !Passes(EvalAt(cs[i].expr, ctx, data, cs[i].depth))
  }

  /** Some part fails, and every part before it passes. */
  ghost predicate FailsFirst(cs: seq<Conjunct>, ctx: Context, data: Value) {
    exists i: nat :: StopsAt(cs, ctx, data, i) && EvalAt(cs[i].expr, ctx, data, cs[i].depth).Bad?
  }

  /** The outcome of the first part that does not pass. */
  ghost function FirstStop(cs: seq<Conjunct>, ctx: Context, data: Value): Option<Outcome> {
    if cs == [] then None
    else
      var o := EvalAt(cs[0].expr, ctx, data, cs[0].depth);
      if Passes(o) then FirstStop(cs[1..], ctx, data) else Some(o)
  }

  lemma {:induction false} FirstStopConcat(a: seq<Conjunct>, b: seq<Conjunct>, ctx: Context, data: Value)
    ensures FirstStop(a + b, ctx, data) ==
            if FirstStop(a, ctx, data).Some? then FirstStop(a, ctx, data) else FirstStop(b, ctx, data)
  {
    hide EvalAt;
    if a == [] {
      assert a + b == b;
    } else {
      assert (a + b)[1..] == a[1..] + b;
      FirstStopConcat(a[1..], b, ctx, data);
    }
  }

  lemma {:induction false} FirstStopMeans(cs: seq<Conjunct>, ctx: Context, data: Value)
    ensures FirstStop(cs, ctx, data).None? <==> AllPass(cs, ctx, data)
    ensures FailsFirst(cs, ctx, data) <==> FirstStop(cs, ctx, data).Some? && FirstStop(cs, ctx, data).value.Bad?
    decreases |cs|
  {
    hide EvalAt;
    if cs != [] {
      var rest := cs[1..];
      FirstStopMeans(rest, ctx, data);
      if Passes(EvalAt(cs[0].expr, ctx, data, cs[0].depth)) {
        AllPassTail(cs, ctx, data);
        if FailsFirst(cs, ctx, data) {
          var i: nat :| StopsAt(cs, ctx, data, i) && EvalAt(cs[i].expr, ctx, data, cs[i].depth).Bad?;
          StopsTail(cs, ctx, data, i);
        }
        if FailsFirst(rest, ctx, data) {
          var i: nat :| StopsAt(rest, ctx, data, i) && EvalAt(rest[i].expr, ctx, data, rest[i].depth).Bad?;
          StopsTail(cs, ctx, data, i + 1);
        }
      } else {
        StopsHere(cs, ctx, data);
      }
    }
  }

  lemma AllPassTail(cs: seq<Conjunct>, ctx: Context, data: Value)
    requires cs != [] && Passes(EvalAt(cs[0].expr, ctx, data, cs[0].depth))
    ensures AllPass(cs, ctx, data) <==> AllPass(cs[1..], ctx, data)
  {
    hide EvalAt;
    if AllPass(cs[1..], ctx, data) {
      forall i | 0 <= i < |cs| ensures Passes(EvalAt(cs[i].expr, ctx, data, cs[i].depth)) {
        if i > 0 { assert cs[1..][i - 1] == cs[i]; }
      }
    }
  }

  lemma StopsTail(cs: seq<Conjunct>, ctx: Context, data: Value, i: nat)
    requires cs != [] && Passes(EvalAt(cs[0].expr, ctx, data, cs[0].depth)) && i < |cs|
    ensures StopsAt(cs, ctx, data, i) <==> i > 0 && StopsAt(cs[1..], ctx, data, i - 1)
  {
    hide EvalAt;
    if i > 0 {
      assert cs[..i][0] == cs[0] && cs[..i][1..] == cs[1..][..i - 1];
      AllPassTail(cs[..i], ctx, data);
    }
  }

  lemma StopsHere(cs: seq<Conjunct>, ctx: Context, data: Value)
    requires cs != [] && !Passes(EvalAt(cs[0].expr, ctx, data, cs[0].depth))
    ensures !AllPass(cs, ctx, data)
    ensures forall i: nat :: StopsAt(cs, ctx, data, i) <==> i == 0
  {
    hide EvalAt;
    assert AllPass(cs[..0], ctx, data);
    forall i: nat | 0 < i < |cs| ensures !StopsAt(cs, ctx, data, i) {
      assert cs[..i][0] == cs[0];
    }
  }

  /** A conjunction is decided by its first part that does not pass. */
  lemma {:induction false} ConjunctionStops(e: Expr, ctx: Context, data: Value, depth: nat)
    ensures var stop := FirstStop(Conjuncts(e, depth), ctx, data);
            && (stop.None? <==> Passes(EvalAt(e, ctx, data, depth)))
            && (stop.Some? && stop.value.Bad? ==> EvalAt(e, ctx, data, depth) == stop.value)
            && (stop.Some? && stop.value.Good? ==> EvalAt(e, ctx, data, depth).Good?)
    decreases e
  {
    hide EvalAt;
    if depth < MAX_PREDICATE_DEPTH && IsAnd(e) {
      var l, r := e.l.value, e.r.value;
      ConjunctionStops(l, ctx, data, depth + 1);
      ConjunctionStops(r, ctx, data, depth + 1);
      FirstStopConcat(Conjuncts(l, depth + 1), Conjuncts(r, depth + 1), ctx, data);
      BinEvaluates(e, ctx, data, depth);
    } else {
      OnePart(e, ctx, data, depth);
    }
  }

  lemma OnePart(e: Expr, ctx: Context, data: Value, depth: nat)
    ensures var o := EvalAt(e, ctx, data, depth);
            FirstStop([Conjunct(e, depth)], ctx, data) == if Passes(o) then None else Some(o)
  {
    hide EvalAt;
    assert [Conjunct(e, depth)][1..] == [];
  }

  /** What a row that fails the extracted equality evaluates to. */
  lemma {:induction false} RejectedOutcome(e: Expr, ctx: Context, data: Value, field: string, depth: nat)
    requires EqualityLiteralAt(e, ctx, field, depth).Some?
    requires !ValuesEqual(Get(data, field), EqualityLiteralAt(e, ctx, field, depth).value)
    ensures var stop := FirstStop(InFront(e, ctx, field, depth), ctx, data);
            EvalAt(e, ctx, data, depth) ==
            if stop.Some? && stop.value.Bad? then stop.value
            else if stop.None? && EqualityDepth(e, ctx, field, depth) + 1 >= MAX_PREDICATE_DEPTH then Bad(TooDeep)
            else Good(Bool(false))
    decreases e
  {
    hide EvalAt, ValuesEqual, FirstStop, LitValue;
    var l, r := e.l.value, e.r.value;
    BinEvaluates(e, ctx, data, depth);
    if e.op == Some("&&") {
      if EqualityLiteralAt(l, ctx, field, depth + 1).Some? {
        RejectedOutcome(l, ctx, data, field, depth + 1);
      } else {
        RejectedOutcome(r, ctx, data, field, depth + 1);
        ConjunctionStops(l, ctx, data, depth + 1);
        FirstStopConcat(Conjuncts(l, depth + 1), InFront(r, ctx, field, depth + 1), ctx, data);
      }
    } else {
      NoStop(ctx, data);
      TooDeepNow(l, ctx, data, depth + 1);
      if depth + 1 < MAX_PREDICATE_DEPTH { EqualityFails(e, ctx, data, field, depth); }
    }
  }

  lemma NoStop(ctx: Context, data: Value)
    ensures FirstStop([], ctx, data) == None
  {
  }

  lemma EqualityFails(e: Expr, ctx: Context, data: Value, field: string, depth: nat)
    requires e.op == Some("==") && EqualityLiteralAt(e, ctx, field, depth).Some? && depth + 1 < MAX_PREDICATE_DEPTH
    requires !ValuesEqual(Get(data, field), EqualityLiteralAt(e, ctx, field, depth).value)
    ensures EvalAt(e, ctx, data, depth) == Good(Bool(false))
  {
    hide EvalAt, ValuesEqual, LitValue;
    var l, r := e.l.value, e.r.value;
    BinEvaluates(e, ctx, data, depth);
    if MatchEquality(l, r, ctx, field).Some? {
      AccessEvaluates(l, ctx, data, field, depth + 1);
      LiteralEvaluates(r, ctx, data, depth + 1);
    } else {
      AccessEvaluates(r, ctx, data, field, depth + 1);
      LiteralEvaluates(l, ctx, data, depth + 1);
      EqualSymmetric(Get(data, field), LitValue(l, ctx));
    }
  }

  /** Exactly when narrowing hides an error. In a predicate that fits the depth bound, a row the
      extracted equality rejects evaluates to an error if and only if one of the conjuncts in
      front of the equality does while all before that one pass, and to false otherwise. */
  lemma RejectedRow(e: Expr, ctx: Context, data: Value, field: string, depth: nat)
    requires EqualityLiteralAt(e, ctx, field, depth).Some? && depth + Height(e) <= MAX_PREDICATE_DEPTH
    requires !ValuesEqual(Get(data, field), EqualityLiteralAt(e, ctx, field, depth).value)
    ensures EvalAt(e, ctx, data, depth).Bad? <==> FailsFirst(InFront(e, ctx, field, depth), ctx, data)
    ensures EvalAt(e, ctx, data, depth).Good? ==> EvalAt(e, ctx, data, depth) == Good(Bool(false))
  {
    hide EvalAt, ValuesEqual, FirstStop, FailsFirst, AllPass, Height, EqualityLiteralAt;
    RejectedOutcome(e, ctx, data, field, depth);
    FirstStopMeans(InFront(e, ctx, field, depth), ctx, data);
    EqualityFits(e, ctx, field, depth);
  }

  /** Without the depth bound there is one more way to fail: every conjunct in front passes and
      the equality's own sides lie past the bound. */
  lemma RejectedRowAnyDepth(e: Expr, ctx: Context, data: Value, field: string, depth: nat)
    requires EqualityLiteralAt(e, ctx, field, depth).Some?
    requires !ValuesEqual(Get(data, field), EqualityLiteralAt(e, ctx, field, depth).value)
    ensures EvalAt(e, ctx, data, depth).Bad? <==>
            || FailsFirst(InFront(e, ctx, field, depth), ctx, data)
            || (AllPass(InFront(e, ctx, field, depth), ctx, data)
                && EqualityDepth(e, ctx, field, depth) + 1 >= MAX_PREDICATE_DEPTH)
    ensures EvalAt(e, ctx, data, depth).Good? ==> EvalAt(e, ctx, data, depth) == Good(Bool(false))
  {
    hide EvalAt, ValuesEqual, FirstStop, FailsFirst, AllPass, EqualityLiteralAt;
    RejectedOutcome(e, ctx, data, field, depth);
    FirstStopMeans(InFront(e, ctx, field, depth), ctx, data);
  }

  lemma {:induction false} EqualityFits(e: Expr, ctx: Context, field: string, depth: nat)
    requires EqualityLiteralAt(e, ctx, field, depth).Some? && depth + Height(e) <= MAX_PREDICATE_DEPTH
    ensures EqualityDepth(e, ctx, field, depth) + 1 < MAX_PREDICATE_DEPTH
    decreases e
  {
    hide Height;
    HeightParts(e);
    if e.op == Some("&&") {
      if EqualityLiteralAt(e.l.value, ctx, field, depth + 1).Some? {
        EqualityFits(e.l.value, ctx, field, depth + 1);
      } else {
        EqualityFits(e.r.value, ctx, field, depth + 1);
      }
    } else {
      HeightParts(e.l.value);
    }
  }

  // ---- the same for prefixes and substrings ----

  /** A conjunction one of whose parts is false: it evaluates to an error exactly when a part in
      front of that one does while all before it pass, and to false otherwise. */
  lemma RejectedBy(e: Expr, ctx: Context, data: Value, depth: nat, i: nat)
    requires i < |Conjuncts(e, depth)|
    requires var c := Conjuncts(e, depth)[i]; EvalAt(c.expr, ctx, data, c.depth) == Good(Bool(false))
    ensures EvalAt(e, ctx, data, depth).Bad? <==> FailsFirst(Conjuncts(e, depth)[..i], ctx, data)
    ensures EvalAt(e, ctx, data, depth).Good? ==> EvalAt(e, ctx, data, depth) == Good(Bool(false))
  {
    hide EvalAt, FailsFirst, AllPass, Conjuncts;
    var cs := Conjuncts(e, depth);
    assert cs == cs[..i] + cs[i..];
    FirstStopConcat(cs[..i], cs[i..], ctx, data);
    assert FirstStop(cs[i..], ctx, data) == Some(Good(Bool(false)));
    FirstStopMeans(cs[..i], ctx, data);
    ConjunctionStops(e, ctx, data, depth);
    FalseOrBad(e, ctx, data, depth, i);
  }

  /** A conjunction yields a boolean. */
  lemma FalseOrBad(e: Expr, ctx: Context, data: Value, depth: nat, i: nat)
    requires i < |Conjuncts(e, depth)| && !Passes(EvalAt(e, ctx, data, depth))
    requires var c := Conjuncts(e, depth)[i]; EvalAt(c.expr, ctx, data, c.depth) == Good(Bool(false))
    ensures EvalAt(e, ctx, data, depth).Good? ==> EvalAt(e, ctx, data, depth) == Good(Bool(false))
  {
    hide EvalAt;
    if depth < MAX_PREDICATE_DEPTH && IsAnd(e) { BinEvaluates(e, ctx, data, depth); }
  }

  /** Which part of the conjunction the extracted prefix comes from. */
  function PrefixIndex(e: Expr, ctx: Context, field: string, depth: nat): (i: nat)
    requires PrefixLiteralAt(e, ctx, field, depth).Some?
    ensures i < |Conjuncts(e, depth)|
  {
    if e.op != Some("&&") then 0
    else if PrefixLiteralAt(e.l.value, ctx, field, depth + 1).Some? then PrefixIndex(e.l.value, ctx, field, depth + 1)
    else |Conjuncts(e.l.value, depth + 1)| + PrefixIndex(e.r.value, ctx, field, depth + 1)
  }

  /** In a predicate that fits the depth bound that part is false on a row without the prefix. */
  lemma {:induction false} PrefixRejects(e: Expr, ctx: Context, data: Value, field: string, depth: nat)
    requires PrefixLiteralAt(e, ctx, field, depth).Some? && depth + Height(e) <= MAX_PREDICATE_DEPTH
    requires var v := Get(data, field); !(v.Text? && StartsWith(v.s, PrefixLiteralAt(e, ctx, field, depth).value))
    ensures var c := Conjuncts(e, depth)[PrefixIndex(e, ctx, field, depth)];
            EvalAt(c.expr, ctx, data, c.depth) == Good(Bool(false))
    decreases e
  {
    hide EvalAt, Height, LitValue;
    HeightParts(e);
    var l, r := e.l.value, e.r.value;
    if e.op == Some("&&") {
      if PrefixLiteralAt(l, ctx, field, depth + 1).Some? {
        PrefixRejects(l, ctx, data, field, depth + 1);
      } else {
        PrefixRejects(r, ctx, data, field, depth + 1);
      }
    } else {
      HeightParts(l);
      BinEvaluates(e, ctx, data, depth);
      AccessEvaluates(l, ctx, data, field, depth + 1);
      LiteralEvaluates(r, ctx, data, depth + 1);
    }
  }

  /** Exactly when narrowing by a prefix hides an error. */
  lemma PrefixRejectedRow(e: Expr, ctx: Context, data: Value, field: string, depth: nat)
    requires PrefixLiteralAt(e, ctx, field, depth).Some? && depth + Height(e) <= MAX_PREDICATE_DEPTH
    requires var v := Get(data, field); !(v.Text? && StartsWith(v.s, PrefixLiteralAt(e, ctx, field, depth).value))
    ensures EvalAt(e, ctx, data, depth).Bad? <==>
            FailsFirst(Conjuncts(e, depth)[..PrefixIndex(e, ctx, field, depth)], ctx, data)
    ensures EvalAt(e, ctx, data, depth).Good? ==> EvalAt(e, ctx, data, depth) == Good(Bool(false))
  {
    hide EvalAt, FailsFirst, Height, PrefixLiteralAt, PrefixIndex, Conjuncts;
    PrefixRejects(e, ctx, data, field, depth);
    RejectedBy(e, ctx, data, depth, PrefixIndex(e, ctx, field, depth));
  }

  /** Which part of the conjunction the `k`-th extracted substring comes from. */
  function SubstringIndex(e: Expr, ctx: Context, field: string, lowered: bool, depth: nat, k: nat): (i: nat)
    requires k < |SubstringLiterals(e, ctx, field, lowered, depth)|
    ensures i < |Conjuncts(e, depth)|
  {
    if e.op.value != "&&" then 0
    else
      var n := |SubstringLiterals(e.l.value, ctx, field, lowered, depth + 1)|;
      if k < n then SubstringIndex(e.l.value, ctx, field, lowered, depth + 1, k)
      else |Conjuncts(e.l.value, depth + 1)| + SubstringIndex(e.r.value, ctx, field, lowered, depth + 1, k - n)
  }

  /** The row's text does not contain the `k`-th extracted substring. */
  predicate Lacks(e: Expr, ctx: Context, data: Value, field: string, lowered: bool, depth: nat, k: nat)
    requires k < |SubstringLiterals(e, ctx, field, lowered, depth)|
  {
    var hay := Haystack(data, ctx, field, lowered);
    !(hay.Text? && Contains(hay.s, SubstringLiterals(e, ctx, field, lowered, depth)[k]))
  }

  lemma {:induction false} SubstringRejects(e: Expr, ctx: Context, data: Value, field: string, lowered: bool,
                                            depth: nat, k: nat)
    requires k < |SubstringLiterals(e, ctx, field, lowered, depth)| && depth + Height(e) <= MAX_PREDICATE_DEPTH
    requires Lacks(e, ctx, data, field, lowered, depth, k)
    ensures var c := Conjuncts(e, depth)[SubstringIndex(e, ctx, field, lowered, depth, k)];
            EvalAt(c.expr, ctx, data, c.depth) == Good(Bool(false))
    decreases e
  {
    hide EvalAt, Height, Haystack, Contains, LitValue, Target, Conjuncts, SubstringIndex;
    HeightParts(e);
    SubstringPart(e, ctx, field, lowered, depth, k);
    if e.op.value == "&&" {
      var n := |SubstringLiterals(e.l.value, ctx, field, lowered, depth + 1)|;
      if k < n {
        SubstringRejects(e.l.value, ctx, data, field, lowered, depth + 1, k);
      } else {
        SubstringRejects(e.r.value, ctx, data, field, lowered, depth + 1, k - n);
      }
    } else {
      TestFails(e, ctx, data, field, lowered, depth);
    }
  }

  /** The part a substring comes from, one level down. */
  lemma SubstringPart(e: Expr, ctx: Context, field: string, lowered: bool, depth: nat, k: nat)
    requires k < |SubstringLiterals(e, ctx, field, lowered, depth)|
    ensures var part := Conjuncts(e, depth)[SubstringIndex(e, ctx, field, lowered, depth, k)];
            if e.op.value != "&&" then part == Conjunct(e, depth)
            else
              var l, r, d := e.l.value, e.r.value, depth + 1;
              var n := |SubstringLiterals(l, ctx, field, lowered, d)|;
              if k < n then part == Conjuncts(l, d)[SubstringIndex(l, ctx, field, lowered, d, k)]
              else part == Conjuncts(r, d)[SubstringIndex(r, ctx, field, lowered, d, k - n)]
  {
    hide LitValue, Target;
  }

  lemma TestFails(e: Expr, ctx: Context, data: Value, field: string, lowered: bool, depth: nat)
    requires e.kind == "bin" && e.l.Some? && e.r.Some? && e.op.Some? && StringTest(e.op.value)
    requires Target(e.l.value, ctx, field, lowered) && Needle(e.r.value, ctx).Some?
    requires depth + Height(e) <= MAX_PREDICATE_DEPTH
    requires var hay := Haystack(data, ctx, field, lowered);
             !(hay.Text? && Contains(hay.s, Needle(e.r.value, ctx).value))
    ensures EvalAt(e, ctx, data, depth) == Good(Bool(false))
  {
    hide EvalAt, Height, Haystack, Contains, LitValue, Target;
    var l, r := e.l.value, e.r.value;
    HeightParts(e);
    HeightParts(r);
    BinEvaluates(e, ctx, data, depth);
    LiteralEvaluates(r, ctx, data, depth + 1);
    TargetGood(l, ctx, data, field, lowered, depth + 1);
    var hay, needle := Haystack(data, ctx, field, lowered), LitValue(r, ctx);
    if hay.Text? && Found(e.op.value, hay.s, needle.s) { FoundContains(e.op.value, hay.s, needle.s); }
  }

  /** The field, lowered or not, always evaluates within the depth bound. */
  lemma TargetGood(e: Expr, ctx: Context, data: Value, field: string, lowered: bool, depth: nat)
    requires Target(e, ctx, field, lowered) && depth + Height(e) <= MAX_PREDICATE_DEPTH
    ensures EvalAt(e, ctx, data, depth) == Good(Haystack(data, ctx, field, lowered))
  {
    hide EvalAt, Height, LowerText;
    HeightParts(e);
    if lowered {
      HeightParts(e.args[0]);
      LoweredEvaluates(e, ctx, data, field, depth);
    } else {
      AccessEvaluates(e, ctx, data, field, depth);
    }
  }

  /** Exactly when narrowing by a substring hides an error. */
  lemma SubstringRejectedRow(e: Expr, ctx: Context, data: Value, field: string, lowered: bool, depth: nat, k: nat)
    requires k < |SubstringLiterals(e, ctx, field, lowered, depth)| && depth + Height(e) <= MAX_PREDICATE_DEPTH
    requires Lacks(e, ctx, data, field, lowered, depth, k)
    ensures EvalAt(e, ctx, data, depth).Bad? <==>
            FailsFirst(Conjuncts(e, depth)[..SubstringIndex(e, ctx, field, lowered, depth, k)], ctx, data)
    ensures EvalAt(e, ctx, data, depth).Good? ==> EvalAt(e, ctx, data, depth) == Good(Bool(false))
  {
    hide EvalAt, FailsFirst, Height, SubstringLiterals, SubstringIndex, Conjuncts, Lacks;
    SubstringRejects(e, ctx, data, field, lowered, depth, k);
    RejectedBy(e, ctx, data, depth, SubstringIndex(e, ctx, field, lowered, depth, k));
  }

  /** Anywhere but first, an equality the planner narrows by may hide an error: here a row
      without either field fails the equality, and evaluating it fails on the comparison. */
  lemma EqualityHidesError(ctx: Context)
    ensures var less := Binary("<", FieldOf(ctx, "a"), Leaf("lit").(val := Some(Number(Int(1)))));
            var equal := Binary("==", FieldOf(ctx, "b"), Leaf("lit").(val := Some(Text("x"))));
            var e := Binary("&&", less, equal);
            && EqualityLiteralAt(e, ctx, "b", 0) == Some(Text("x"))
            && !ValuesEqual(Get(Null, "b"), Text("x"))
            && Eval(e, ctx, Null) == Bad(Unsupported)
  {
    var less := Binary("<", FieldOf(ctx, "a"), Leaf("lit").(val := Some(Number(Int(1)))));
    var equal := Binary("==", FieldOf(ctx, "b"), Leaf("lit").(val := Some(Text("x"))));
    BinEvaluates(Binary("&&", less, equal), ctx, Null, 0);
    BinEvaluates(less, ctx, Null, 1);
    AccessEvaluates(FieldOf(ctx, "a"), ctx, Null, "a", 2);
    LiteralEvaluates(Leaf("lit").(val := Some(Number(Int(1)))), ctx, Null, 2);
    assert EqualityLiteralAt(less, ctx, "b", 1) == None;
    assert MatchEquality(equal.l.value, equal.r.value, ctx, "b") == Some(Text("x"));
  }
}
