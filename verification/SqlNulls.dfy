/** Where the dialect's nulls differ from SQL's (ISO/IEC 9075:1992): AND and OR are null-strict
    (crates/rspark-core/src/expr.rs:264-266, sections 8.12 and 7.6), and null joins null
    (crates/rspark-exec/src/operators.rs:539, section 7.5). */
module SqlNulls {
  import opened Results
  import opened Values
  import opened Records
  import opened Expressions
  import opened Plans
  import opened Subsequences
  import opened Operators
  import opened NaturalJoins

  // ----- WHERE -----

  datatype Truth = True | False | Unknown

  predicate IsJunction(e: Expr) {
    e.Binary? && e.op in {AndOp, OrOp}
  }

  /** Below AND, OR and NOT, every operand evaluates to a truth value or null. */
  ghost predicate LeavesAreTruths(h: Host, e: Expr, row: Record, schema: Schema) {
    if IsJunction(e) then LeavesAreTruths(h, e.left, row, schema) && LeavesAreTruths(h, e.right, row, schema)
    else if e.Not? then LeavesAreTruths(h, e.inner, row, schema)
    else
      var v := Eval(h, e, row, schema);
      v.Ok? && (v.value.Null? || v.value.Boolean?)
  }

  /** Below AND, OR and NOT, some operand is null. */
  ghost predicate SomeLeafNull(h: Host, e: Expr, row: Record, schema: Schema) {
    if IsJunction(e) then SomeLeafNull(h, e.left, row, schema) || SomeLeafNull(h, e.right, row, schema)
    else if e.Not? then SomeLeafNull(h, e.inner, row, schema)
    else Eval(h, e, row, schema) == Ok(Null)
  }

  function SqlAnd(a: Truth, b: Truth): Truth {
    if a.False? || b.False? then False else if a.True? && b.True? then True else Unknown
  }

  function SqlOr(a: Truth, b: Truth): Truth {
    if a.True? || b.True? then True else if a.False? && b.False? then False else Unknown
  }

  function SqlNot(a: Truth): Truth {
    match a case True => False case False => True case Unknown => Unknown
  }

  /** SQL's three-valued meaning over the same operands. */
  ghost function Sql(h: Host, e: Expr, row: Record, schema: Schema): Truth {
    if IsJunction(e) then
      var l, r := Sql(h, e.left, row, schema), Sql(h, e.right, row, schema);
      if e.op.AndOp? then SqlAnd(l, r) else SqlOr(l, r)
    else if e.Not? then SqlNot(Sql(h, e.inner, row, schema))
    else
      match Eval(h, e, row, schema)
      case Ok(Boolean(b)) => if b then True else False
      case _ => Unknown
  }

  /** A condition is null exactly when one of its operands is, and otherwise has SQL's truth value. */
  lemma {:induction false} NullStrictExactly(h: Host, e: Expr, row: Record, schema: Schema)
    requires LeavesAreTruths(h, e, row, schema)
    ensures SomeLeafNull(h, e, row, schema) ==> Eval(h, e, row, schema) == Ok(Null)
    ensures !SomeLeafNull(h, e, row, schema) ==>
      !Sql(h, e, row, schema).Unknown? && Eval(h, e, row, schema) == Ok(Boolean(Sql(h, e, row, schema).True?))
  {
    if IsJunction(e) {
      NullStrictExactly(h, e.left, row, schema);
      NullStrictExactly(h, e.right, row, schema);
      JunctionIs(h, e, row, schema);
    } else if e.Not? {
      NullStrictExactly(h, e.inner, row, schema);
    }
  }

  lemma JunctionIs(h: Host, e: Expr, row: Record, schema: Schema)
    requires IsJunction(e) && Eval(h, e.left, row, schema).Ok? && Eval(h, e.right, row, schema).Ok?
    ensures Eval(h, e, row, schema)
         == NullStrict(h, e.op, Eval(h, e.left, row, schema).value, Eval(h, e.right, row, schema).value)
  {
    hide NullStrict;
  }

  /** The verdict on a row: true exactly when SQL says true and no operand is null. */
  lemma VerdictExactly(h: Host, e: Expr, row: Record, schema: Schema)
    requires LeavesAreTruths(h, e, row, schema)
    ensures EvalPredicate(h, e, row, schema)
         == Ok(Sql(h, e, row, schema).True? && !SomeLeafNull(h, e, row, schema))
  {
    hide Eval, Sql, SomeLeafNull, LeavesAreTruths, SubstituteAggregates;
    NullStrictExactly(h, e, row, schema);
    if HasAggregate(e) {
      AggregateFails(h, e, row, schema);
    }
  }

  /** The rows that SQL's WHERE keeps. */
  ghost function SqlRows(h: Host, e: Expr, rows: seq<Record>, schema: Schema): seq<Record> {
    Select(rows, seq(|rows|, i requires 0 <= i < |rows| => Sql(h, e, rows[i], schema).True?))
  }

  lemma {:induction false} FilterSucceeds(h: Host, e: Expr, rows: seq<Record>, schema: Schema)
    requires forall i :: 0 <= i < |rows| ==> EvalPredicate(h, e, rows[i], schema).Ok?
    ensures FilterRows(h, e, rows, schema).Ok?
  {
    hide EvalPredicate;
    if rows != [] {
      FilterSucceeds(h, e, rows[1..], schema);
    }
  }

  /** WHERE keeps a subsequence of what SQL keeps, and all of it exactly when no row has a null operand in a
      condition that SQL finds true. */
  lemma WhereIsSqlExactly(h: Host, e: Expr, rows: seq<Record>, schema: Schema)
    requires forall i :: 0 <= i < |rows| ==> LeavesAreTruths(h, e, rows[i], schema)
    ensures FilterRows(h, e, rows, schema).Ok?
    ensures |FilterRows(h, e, rows, schema).value| <= |SqlRows(h, e, rows, schema)|
    ensures FilterRows(h, e, rows, schema).value == SqlRows(h, e, rows, schema) <==>
      forall i :: 0 <= i < |rows| ==> !(SomeLeafNull(h, e, rows[i], schema) && Sql(h, e, rows[i], schema).True?)
  {
    hide LeavesAreTruths, SomeLeafNull, Sql, EvalPredicate, FilterRows, Select;
    forall i | 0 <= i < |rows|
      ensures EvalPredicate(h, e, rows[i], schema)
           == Ok(Sql(h, e, rows[i], schema).True? && !SomeLeafNull(h, e, rows[i], schema))
    {
      VerdictExactly(h, e, rows[i], schema);
    }
    FilterSucceeds(h, e, rows, schema);
    FilterKeepsTrueRows(h, e, rows, schema);
    var kept := Truths(h, e, rows, schema);
    var sql := seq(|rows|, i requires 0 <= i < |rows| => Sql(h, e, rows[i], schema).True?);
    SelectFewer(rows, kept, sql);
    assert kept == sql <==> forall i :: 0 <= i < |rows| ==> kept[i] == sql[i];
  }

  /** For instance `1 = 1 OR NULL = 1`, which SQL finds true on every row and the engine null. */
  lemma TrueOrNullIsDropped(h: Host, row: Record, schema: Schema)
    ensures var one := Lit(IntLit(1));
            var e := Binary(OrOp, Binary(EqOp, one, one), Binary(EqOp, Lit(NullLit), one));
            && LeavesAreTruths(h, e, row, schema) && Sql(h, e, row, schema).True?
            && EvalPredicate(h, e, row, schema) == Ok(false)
  {
    var l, r := Binary(EqOp, Lit(IntLit(1)), Lit(IntLit(1))), Binary(EqOp, Lit(NullLit), Lit(IntLit(1)));
    assert Eval(h, Lit(IntLit(1)), row, schema) == Ok(Int64(1)) && Eval(h, Lit(NullLit), row, schema) == Ok(Null);
    assert Eval(h, r, row, schema) == NullStrict(h, EqOp, Null, Int64(1));
    assert Eval(h, l, row, schema) == NullStrict(h, EqOp, Int64(1), Int64(1));
    assert Eval(h, l, row, schema) == Ok(Boolean(true)) && Eval(h, r, row, schema) == Ok(Null);
    assert Sql(h, l, row, schema).True? && SomeLeafNull(h, r, row, schema);
    VerdictExactly(h, Binary(OrOp, l, r), row, schema);
  }

  // ----- natural join -----

  /** Two tables share a column under which the tuple is null. */
  ghost predicate SharesNull(ts: Tables, tup: seq<nat>)
    requires IsTuple(ts, tup)
  {
    exists i, j, c :: 0 <= i < j < |ts| && HasColumn(ts[i].schema, c) && HasColumn(ts[j].schema, c)
                   && Cell(ts[i], tup[i], c).Null?
  }

  /** SQL keeps a tuple when its tables agree and no shared column is null. */
  ghost function SqlTupleRows(ts: Tables, tup: seq<nat>): seq<Record> {
    if AreTables(ts) && IsTuple(ts, tup) && Consistent(ts, tup) && !SharesNull(ts, tup)
    then [MergedRow(ts, tup)]
    else []
  }

  ghost function SqlJoin(ts: Tables): seq<Record> {
    FlatMap((tup: seq<nat>) => SqlTupleRows(ts, tup), AllTuples(ts))
  }

  /** The natural join has SQL's rows, and exactly those when no consistent tuple is null under a shared column. */
  lemma JoinIsSqlExactly(ts: Tables)
    requires AreTables(ts)
    ensures |SqlJoin(ts)| <= |NaturalJoin(ts).records|
    ensures SqlJoin(ts) == NaturalJoin(ts).records <==>
      forall tup :: IsTuple(ts, tup) && Consistent(ts, tup) ==> !SharesNull(ts, tup)
  {
    hide AreTables, IsTuple, Consistent, SharesNull, MergedRow, AllTuples;
    var sql := (tup: seq<nat>) => SqlTupleRows(ts, tup);
    var all := (tup: seq<nat>) => TupleRows(ts, tup);
    var tups := AllTuples(ts);
    FlatMapFewer(sql, all, tups);
    AllTuplesAreTuples(ts);
    if forall i :: 0 <= i < |tups| ==> sql(tups[i]) == all(tups[i]) {
      forall tup | IsTuple(ts, tup) && Consistent(ts, tup)
        ensures !SharesNull(ts, tup)
      {
        AllTuplesComplete(ts, tup);
        var i :| 0 <= i < |tups| && tups[i] == tup;
        assert sql(tups[i]) == all(tups[i]) && all(tup) == [MergedRow(ts, tup)];
      }
    }
  }

  /** For instance two tables with one column and one null each: one joined row, none in SQL. */
  lemma NullJoinsNull()
    ensures var t := Batch([Field("c", Int64Type, true)], [[Null]]);
            AreTables([t, t]) && IsTuple([t, t], [0, 0]) && Consistent([t, t], [0, 0]) && SharesNull([t, t], [0, 0])
  {
    var t := Batch([Field("c", Int64Type, true)], [[Null]]);
    assert Fits(t.records[0], t.schema);
    assert t.schema[0].name == "c" && IndexOf(t.schema, "c") == Some(0);
    assert HasColumn(t.schema, "c") && Cell(t, 0, "c") == Null;
    forall c | HasColumn(t.schema, c)
      ensures ValueEq(Cell(t, 0, c), Cell(t, 0, c))
    {
      assert c == "c";
    }
    var ts, tup := [t, t], [0, 0];
    assert HasColumn(ts[0].schema, "c") && HasColumn(ts[1].schema, "c") && Cell(ts[0], tup[0], "c").Null?;
  }
}
