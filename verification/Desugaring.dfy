/** COALESCE, IN lists and BETWEEN as the expression builder lowers them
    (crates/rspark-sql/src/expr_builder.rs:90-125,180-197,338-347). */
module Desugaring {
  import opened Results
  import opened Values
  import opened Records
  import opened Expressions

  // ----- COALESCE -----

  /** One folding step: the tree built so far, unless it is null, else the next argument. */
  function CoalesceStep(acc: Expr, next: Expr): Expr {
    If(IsNotNull(acc), acc, next)
  }

  function CoalesceExpr(args: seq<Expr>): Expr {
    if args == [] then Lit(NullLit)
    else if |args| == 1 then args[0]
    else CoalesceStep(CoalesceExpr(args[..|args| - 1]), args[|args| - 1])
  }

  method BuildCoalesce(args: seq<Expr>) returns (e: Expr)
    ensures e == CoalesceExpr(args)
  {
    if args == [] {
      return Lit(NullLit);
    }
    e := args[0];
    for i := 1 to |args|
      invariant e == CoalesceExpr(args[..i])
    {
      assert args[..i + 1][..i] == args[..i];
      e := CoalesceStep(e, args[i]);
    }
    assert args[..|args|] == args;
  }

  /** Reference meaning: evaluate left to right, stop at the first error or non-null value. */
  function FirstNonNull(h: Host, args: seq<Expr>, row: Record, schema: Schema): Result<Value> {
    if args == [] then Ok(Null)
    else
      var v :- Eval(h, args[0], row, schema);
      if !v.Null? then Ok(v) else FirstNonNull(h, args[1..], row, schema)
  }

  lemma {:induction false} FirstNonNullSnoc(h: Host, args: seq<Expr>, last: Expr, row: Record, schema: Schema)
    ensures FirstNonNull(h, args + [last], row, schema)
         == var v :- FirstNonNull(h, args, row, schema);
            if !v.Null? then Ok(v) else Eval(h, last, row, schema)
  {
    hide Eval;
    if args == [] {
      assert args + [last] == [last] && [last][1..] == [];
    } else {
      assert (args + [last])[1..] == args[1..] + [last];
      FirstNonNullSnoc(h, args[1..], last, row, schema);
    }
  }

  /** COALESCE of any number of arguments is its first non-null argument, else null; an argument is
      evaluated only when all earlier ones are null. */
  lemma {:induction false} CoalesceMeaning(h: Host, args: seq<Expr>, row: Record, schema: Schema)
    ensures Eval(h, CoalesceExpr(args), row, schema) == FirstNonNull(h, args, row, schema)
  {
    if |args| == 1 {
      FirstNonNullSnoc(h, [], args[0], row, schema);
      assert [] + [args[0]] == args;
    } else if |args| > 1 {
      var n := |args| - 1;
      CoalesceMeaning(h, args[..n], row, schema);
      FirstNonNullSnoc(h, args[..n], args[n], row, schema);
      assert args[..n] + [args[n]] == args;
    }
  }

  /** Later arguments do not matter once one is non-null or fails. */
  lemma {:induction false} CoalesceStopsEarly(h: Host, args: seq<Expr>, rest: seq<Expr>, row: Record, schema: Schema)
    requires FirstNonNull(h, args, row, schema) != Ok(Null)
    ensures Eval(h, CoalesceExpr(args + rest), row, schema) == Eval(h, CoalesceExpr(args), row, schema)
  {
    CoalesceMeaning(h, args + rest, row, schema);
    CoalesceMeaning(h, args, row, schema);
    FirstNonNullStops(h, args, rest, row, schema);
  }

  lemma {:induction false} FirstNonNullStops(h: Host, args: seq<Expr>, rest: seq<Expr>, row: Record, schema: Schema)
    requires FirstNonNull(h, args, row, schema) != Ok(Null)
    ensures FirstNonNull(h, args + rest, row, schema) == FirstNonNull(h, args, row, schema)
  {
    hide Eval;
    assert (args + rest)[0] == args[0] && (args + rest)[1..] == args[1..] + rest;
    var first := Eval(h, args[0], row, schema);
    if first == Ok(Null) {
      FirstNonNullStops(h, args[1..], rest, row, schema);
    }
  }

  // ----- IN lists -----

  function InListExpr(target: Expr, items: seq<Expr>): Expr {
    if items == [] then Lit(BoolLit(false))
    else if |items| == 1 then Binary(EqOp, target, items[0])
    else Binary(OrOp, InListExpr(target, items[..|items| - 1]), Binary(EqOp, target, items[|items| - 1]))
  }

  method BuildInList(target: Expr, items: seq<Expr>, negated: bool) returns (e: Expr)
    ensures e == if negated then Not(InListExpr(target, items)) else InListExpr(target, items)
  {
    var chain: Option<Expr> := None;
    for i := 0 to |items|
      invariant i == 0 <==> chain.None?
      invariant i > 0 ==> chain.value == InListExpr(target, items[..i])
    {
      assert items[..i + 1][..i] == items[..i];
      var cmp := Binary(EqOp, target, items[i]);
      chain := Some(match chain case None => cmp case Some(prev) => Binary(OrOp, prev, cmp));
    }
    assert items[..|items|] == items;
    var predicate_ := if chain.Some? then chain.value else Lit(BoolLit(false));
    e := if negated then Not(predicate_) else predicate_;
  }

  ghost predicate Evaluates(h: Host, es: seq<Expr>, row: Record, schema: Schema, vs: seq<Value>) {
    |vs| == |es| && forall i :: 0 <= i < |es| ==> Eval(h, es[i], row, schema) == Ok(vs[i])
  }

  ghost predicate AnyNull(vs: seq<Value>) {
    exists i :: 0 <= i < |vs| && vs[i].Null?
  }

  ghost predicate AnyEqual(t: Value, vs: seq<Value>) {
    exists i :: 0 <= i < |vs| && ValueEq(t, vs[i])
  }

  /** The value of a non-empty IN list: null when the target or any item is null, otherwise whether
      some item is structurally equal to the target. */
  ghost function InListValue(t: Value, vs: seq<Value>): Value {
    if t.Null? || AnyNull(vs) then Null else Boolean(AnyEqual(t, vs))
  }

  lemma InListValueSnoc(t: Value, vs: seq<Value>, v: Value)
    ensures AnyNull(vs + [v]) <==> AnyNull(vs) || v.Null?
    ensures AnyEqual(t, vs + [v]) <==> AnyEqual(t, vs) || ValueEq(t, v)
  {
    var all := vs + [v];
    assert all[|vs|] == v;
    if AnyNull(vs) {
      var i :| 0 <= i < |vs| && vs[i].Null?;
      assert all[i].Null?;
    }
    if AnyEqual(t, vs) {
      var i :| 0 <= i < |vs| && ValueEq(t, vs[i]);
      assert ValueEq(t, all[i]);
    }
  }

  lemma {:induction false} InListMeaning(h: Host, target: Expr, items: seq<Expr>, row: Record, schema: Schema,
        t: Value, vs: seq<Value>)
    requires items != [] && Eval(h, target, row, schema) == Ok(t) && Evaluates(h, items, row, schema, vs)
    ensures Eval(h, InListExpr(target, items), row, schema) == Ok(InListValue(t, vs))
  {
    var n := |items| - 1;
    assert vs[..n] + [vs[n]] == vs;
    InListValueSnoc(t, vs[..n], vs[n]);
    assert Eval(h, Binary(EqOp, target, items[n]), row, schema)
        == Ok(if t.Null? || vs[n].Null? then Null else Boolean(ValueEq(t, vs[n])));
    if n > 0 {
      InListMeaning(h, target, items[..n], row, schema, t, vs[..n]);
    } else {
      assert vs[..0] == [];
    }
  }

  /** Nothing is in the empty list, and everything is not in it, a null or failing target included. */
  lemma EmptyInList(h: Host, target: Expr, row: Record, schema: Schema)
    ensures Eval(h, InListExpr(target, []), row, schema) == Ok(Boolean(false))
    ensures Eval(h, Not(InListExpr(target, [])), row, schema) == Ok(Boolean(true))
  {
  }

  /** The first error among the expressions, in order. */
  ghost function FirstFailure(h: Host, es: seq<Expr>, row: Record, schema: Schema): Option<Error> {
    if es == [] then None
    else
      var n := |es| - 1;
      var earlier := FirstFailure(h, es[..n], row, schema);
      if earlier.Some? then earlier
      else if Eval(h, es[n], row, schema).Err? then Some(Eval(h, es[n], row, schema).error)
      else None
  }

  lemma {:induction false} NoFailureMeans(h: Host, es: seq<Expr>, row: Record, schema: Schema)
    requires FirstFailure(h, es, row, schema).None?
    ensures forall i :: 0 <= i < |es| ==> Eval(h, es[i], row, schema).Ok?
  {
    if es != [] {
      NoFailureMeans(h, es[..|es| - 1], row, schema);
    }
  }

  lemma BinaryFails(h: Host, op: BinaryOp, l: Expr, r: Expr, row: Record, schema: Schema)
    ensures Eval(h, l, row, schema).Err? ==> Eval(h, Binary(op, l, r), row, schema) == Eval(h, l, row, schema)
    ensures Eval(h, l, row, schema).Ok? && Eval(h, r, row, schema).Err? ==>
        Eval(h, Binary(op, l, r), row, schema) == Eval(h, r, row, schema)
  {
    hide ApplyBinary;
  }

  lemma FirstFailureSnoc(h: Host, es: seq<Expr>, e: Expr, row: Record, schema: Schema)
    ensures FirstFailure(h, es + [e], row, schema)
         == if FirstFailure(h, es, row, schema).Some? then FirstFailure(h, es, row, schema)
            else if Eval(h, e, row, schema).Err? then Some(Eval(h, e, row, schema).error) else None
  {
    hide Eval;
    assert (es + [e])[..|es|] == es;
  }

  /** An IN list is never cut short: it fails with the first failing operand. */
  lemma {:induction false} InListFails(h: Host, target: Expr, items: seq<Expr>, row: Record, schema: Schema)
    requires items != [] && FirstFailure(h, [target] + items, row, schema).Some?
    ensures Eval(h, InListExpr(target, items), row, schema) == Err(FirstFailure(h, [target] + items, row, schema).value)
  {
    hide Eval, FirstFailure;
    var n := |items| - 1;
    var before := [target] + items[..n];
    assert [target] + items == before + [items[n]];
    FirstFailureSnoc(h, before, items[n], row, schema);
    BinaryFails(h, EqOp, target, items[n], row, schema);
    if n == 0 {
      assert before == [] + [target];
      FirstFailureSnoc(h, [], target, row, schema);
      NoOperands(h, row, schema);
    } else {
      BinaryFails(h, OrOp, InListExpr(target, items[..n]), Binary(EqOp, target, items[n]), row, schema);
      if FirstFailure(h, before, row, schema).Some? {
        InListFails(h, target, items[..n], row, schema);
      } else {
        var vs := InListTotal(h, target, items[..n], row, schema);
      }
    }
  }

  lemma NoOperands(h: Host, row: Record, schema: Schema)
    ensures FirstFailure(h, [], row, schema) == None
  {
  }

  /** Without a failing operand it has the value above. */
  lemma InListTotal(h: Host, target: Expr, items: seq<Expr>, row: Record, schema: Schema) returns (vs: seq<Value>)
    requires items != [] && FirstFailure(h, [target] + items, row, schema).None?
    ensures Eval(h, target, row, schema).Ok? && Evaluates(h, items, row, schema, vs)
    ensures Eval(h, InListExpr(target, items), row, schema) == Ok(InListValue(Eval(h, target, row, schema).value, vs))
  {
    hide Eval, InListExpr, InListValue, FirstFailure;
    var all := [target] + items;
    NoFailureMeans(h, all, row, schema);
    assert all[0] == target;
    forall i | 0 <= i < |items|
      ensures Eval(h, items[i], row, schema).Ok?
    {
      assert all[i + 1] == items[i];
    }
    vs := OperandValues(h, items, row, schema);
    InListMeaning(h, target, items, row, schema, Eval(h, target, row, schema).value, vs);
  }

  lemma {:induction false} OperandValues(h: Host, es: seq<Expr>, row: Record, schema: Schema) returns (vs: seq<Value>)
    requires forall i :: 0 <= i < |es| ==> Eval(h, es[i], row, schema).Ok?
    ensures Evaluates(h, es, row, schema, vs)
  {
    hide Eval;
    if es == [] {
      vs := [];
    } else {
      var n := |es| - 1;
      vs := OperandValues(h, es[..n], row, schema);
      vs := vs + [Eval(h, es[n], row, schema).value];
    }
  }

  // ----- BETWEEN -----

  function BetweenExpr(e: Expr, low: Expr, high: Expr, negated: bool): Expr {
    var between := Binary(AndOp, Binary(GtEqOp, e, low), Binary(LtEqOp, e, high));
    if negated then Not(between) else between
  }

  /** How two values compare, null when one of them is null. */
  function Bound(h: Host, v: Value, bound: Value, bad: Ordering): Result<Value> {
    if v.Null? || bound.Null? then Ok(Null)
    else
      var o :- TryCmp(h, v, bound);
      Ok(Boolean(o != bad))
  }

  /** BETWEEN: incomparable operands are an error, the lower bound's first; otherwise a null makes
      it null, and it is the closed interval test on the rest. NOT BETWEEN is its negation. */
  ghost function BetweenValue(h: Host, v: Value, lo: Value, hi: Value, negated: bool): Result<Value> {
    if Bound(h, v, lo, Less).Err? then Bound(h, v, lo, Less)
    else if Bound(h, v, hi, Greater).Err? then Bound(h, v, hi, Greater)
    else if v.Null? || lo.Null? || hi.Null? then Ok(Null)
    else
      var inside := !TryCmp(h, v, lo).value.Less? && !TryCmp(h, v, hi).value.Greater?;
      Ok(Boolean(if negated then !inside else inside))
  }

  lemma BoundMeaning(h: Host, e: Expr, bound: Expr, row: Record, schema: Schema, v: Value, b: Value)
    requires Eval(h, e, row, schema) == Ok(v) && Eval(h, bound, row, schema) == Ok(b)
    ensures Eval(h, Binary(GtEqOp, e, bound), row, schema) == Bound(h, v, b, Less)
    ensures Eval(h, Binary(LtEqOp, e, bound), row, schema) == Bound(h, v, b, Greater)
  {
    hide TryCmp;
  }

  lemma BetweenMeaning(h: Host, e: Expr, low: Expr, high: Expr, negated: bool, row: Record, schema: Schema, v: Value,
                       lo: Value, hi: Value)
    requires Eval(h, e, row, schema) == Ok(v) && Eval(h, low, row, schema) == Ok(lo) &&
        Eval(h, high, row, schema) == Ok(hi)
    ensures Eval(h, BetweenExpr(e, low, high, negated), row, schema) == BetweenValue(h, v, lo, hi, negated)
  {
    hide TryCmp;
    BoundMeaning(h, e, low, row, schema, v, lo);
    BoundMeaning(h, e, high, row, schema, v, hi);
    var l, r := Binary(GtEqOp, e, low), Binary(LtEqOp, e, high);
    assert Eval(h, BetweenExpr(e, low, high, false), row, schema) == Eval(h, Binary(AndOp, l, r), row, schema);
    if Eval(h, l, row, schema).Ok? && Eval(h, r, row, schema).Ok? {
      assert Eval(h, Binary(AndOp, l, r), row, schema)
          == NullStrict(h, AndOp, Eval(h, l, row, schema).value, Eval(h, r, row, schema).value);
    }
    assert Eval(h, Binary(AndOp, l, r), row, schema) == BetweenValue(h, v, lo, hi, false);
  }

  /** An operand that fails to evaluate makes BETWEEN fail: the tested expression first, then the lower bound,
      then an incomparable lower bound, then the upper bound. */
  lemma BetweenFails(h: Host, e: Expr, low: Expr, high: Expr, negated: bool, row: Record, schema: Schema)
    ensures var v, lo, hi := Eval(h, e, row, schema), Eval(h, low, row, schema), Eval(h, high, row, schema);
            var between := Eval(h, BetweenExpr(e, low, high, negated), row, schema);
            && (v.Err? ==> between == v)
            && (v.Ok? && lo.Err? ==> between == lo)
            && (v.Ok? && lo.Ok? && Bound(h, v.value, lo.value, Less).Err? ==>
                between == Bound(h, v.value, lo.value, Less))
            && (v.Ok? && lo.Ok? && Bound(h, v.value, lo.value, Less).Ok? && hi.Err? ==> between == hi)
  {
    hide TryCmp;
    var l, r := Binary(GtEqOp, e, low), Binary(LtEqOp, e, high);
    BinaryFails(h, GtEqOp, e, low, row, schema);
    BinaryFails(h, LtEqOp, e, high, row, schema);
    BinaryFails(h, AndOp, l, r, row, schema);
    if Eval(h, e, row, schema).Ok? && Eval(h, low, row, schema).Ok? {
      BoundMeaning(h, e, low, row, schema, Eval(h, e, row, schema).value, Eval(h, low, row, schema).value);
    }
    NegationFails(h, Binary(AndOp, l, r), row, schema);
  }

  lemma NegationFails(h: Host, e: Expr, row: Record, schema: Schema)
    ensures Eval(h, e, row, schema).Err? ==> Eval(h, Not(e), row, schema) == Eval(h, e, row, schema)
  {
  }
}
