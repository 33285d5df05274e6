/** ORDER BY and LIMIT as the executor runs them (crates/rspark-exec/src/executor.rs:252-263), against the order of
    values. */
module TopRows {
  import opened Results
  import opened Subsequences
  import opened Values
  import opened Records
  import opened Expressions
  import opened Plans
  import opened Operators
  import opened Sorting
  import opened Comparisons
  import opened Executor

  lemma RearrangedRowsFit(rows: seq<Record>, out: seq<Record>, schema: Schema)
    requires AllFit(rows, schema) && multiset(out) == multiset(rows)
    ensures AllFit(out, schema)
  {
    forall k | 0 <= k < |out|
      ensures Fits(out[k], schema)
    {
      assert out[k] in multiset(out);
      assert out[k] in rows;
    }
  }

  /** `out` is `rows` rearranged so that no row ranks after a later one. */
  ghost predicate IsOrdering(h: Host, order: seq<SortExpr>, schema: Schema, rows: seq<Record>, out: seq<Record>) {
    && multiset(out) == multiset(rows)
    && forall i, j :: 0 <= i < j < |out| ==> !RowRanksAfter(h, order, schema, out[i], out[j])
  }

  /** Sorting sortable rows succeeds, and rearranges them so that no row ranks after a later one. */
  lemma SortedRowsAreOrdered(h: Host, order: seq<SortExpr>, rows: seq<Record>, schema: Schema)
    requires LibraryIsStable(h) && Sortable(h, order, rows, schema)
    ensures SortedRows(h, order, rows, schema).Ok?
    ensures IsOrdering(h, order, schema, rows, SortedRows(h, order, rows, schema).value)
  {
    hide SortedRows, Sortable, LibraryIsStable, RowRanksAfter;
    OrderByLimit(h, order, rows, schema, |rows|);
    var out := SortedRows(h, order, rows, schema).value;
    forall i, j | 0 <= i < j < |out|
      ensures !RowRanksAfter(h, order, schema, out[i], out[j])
    {
      SortsAfterExactly(h, order, schema, out[i], out[j]);
    }
  }

  /** An executed ORDER BY over sortable rows returns such a rearrangement. */
  lemma SortNode(env: Env, input: Plan, order: seq<SortExpr>, b: Batch) returns (out: seq<Record>)
    requires LibraryIsStable(env.host)
    requires Denote(input, env) == Ok(b) && ValidBatch(b) && Sortable(env.host, order, b.records, b.schema)
    ensures Denote(Sort(input, order, b.schema), env) == Ok(Batch(b.schema, out)) && ValidBatch(Batch(b.schema, out))
    ensures IsOrdering(env.host, order, b.schema, b.records, out)
  {
    hide Denote, SortedRows, Sortable, LibraryIsStable, RowRanksAfter;
    SortedRowsAreOrdered(env.host, order, b.records, b.schema);
    out := SortedRows(env.host, order, b.records, b.schema).value;
    RearrangedRowsFit(b.records, out, b.schema);
    SortUnfolds(env, input, order, b.schema, b);
  }

  lemma SortUnfolds(env: Env, input: Plan, order: seq<SortExpr>, schema: Schema, b: Batch)
    requires Denote(input, env) == Ok(b)
    ensures Denote(Sort(input, order, schema), env) == SortMeaning(env.host, order, schema, b)
  {
    hide SortMeaning;
  }

  /** The first `count` rows, or all if there are fewer. */
  ghost function Top(rows: seq<Record>, count: nat): seq<Record> {
    rows[..if count < |rows| then count else |rows|]
  }

  /** An executed LIMIT keeps the first rows. */
  lemma LimitNodeKeeps(env: Env, input: Plan, count: nat, b: Batch)
    requires Denote(input, env) == Ok(b) && ValidBatch(b)
    ensures Denote(Limit(input, count, b.schema), env) == Ok(Batch(b.schema, Top(b.records, count)))
  {
    hide Denote;
    LimitUnfolds(env, input, count, b.schema, b);
    assert b.records[..|b.records|] == b.records;
    assert FirstRows(b.records, count) == Top(b.records, count);
    assert AllFit(Top(b.records, count), b.schema);
  }

  lemma LimitUnfolds(env: Env, input: Plan, count: nat, schema: Schema, b: Batch)
    requires Denote(input, env) == Ok(b)
    ensures Denote(Limit(input, count, schema), env) == LimitMeaning(count, schema, b)
  {
    hide LimitMeaning;
  }

  /** On sortable rows, ORDER BY ... LIMIT n returns the first n rows of a rearrangement `out` of the input in which
      no row ranks after a later one; so no kept row ranks after a dropped one. */
  lemma OrderByLimitKeepsTop(env: Env, input: Plan, order: seq<SortExpr>, count: nat, b: Batch)
    returns (out: seq<Record>)
    requires LibraryIsStable(env.host)
    requires Denote(input, env) == Ok(b) && ValidBatch(b) && Sortable(env.host, order, b.records, b.schema)
    ensures Denote(Limit(Sort(input, order, b.schema), count, b.schema), env) == Ok(Batch(b.schema, Top(out, count)))
    ensures IsOrdering(env.host, order, b.schema, b.records, out)
  {
    hide Denote, Sortable, LibraryIsStable, IsOrdering;
    out := SortNode(env, input, order, b);
    LimitNodeKeeps(env, Sort(input, order, b.schema), count, Batch(b.schema, out));
  }

  // ----- one typed column -----

  /** Column `c` holds values of one type, or integers of both widths, with nulls. */
  ghost predicate IsTypedColumn(h: Host, c: string, t: ColumnType, b: Batch) {
    forall i :: 0 <= i < |b.records| ==>
      Eval(h, Column(c), b.records[i], b.schema).Ok? && OfType(Eval(h, Column(c), b.records[i], b.schema).value, t)
  }

  lemma OneColumnIsSortable(h: Host, c: string, ascending: bool, t: ColumnType, b: Batch)
    requires IsTypedColumn(h, c, t, b)
    ensures Sortable(h, [SortExpr(Column(c), ascending)], b.records, b.schema)
  {
    var order := [SortExpr(Column(c), ascending)];
    assert order[1..] == [];
    forall i | 0 <= i < |b.records|
      ensures RowKeys(h, order, b.records[i], b.schema).Ok?
      ensures KeysOfTypes(RowKeys(h, order, b.records[i], b.schema).value, [t])
    {
      assert RowKeys(h, [], b.records[i], b.schema) == Ok([]);
      assert RowKeys(h, order, b.records[i], b.schema) == Ok([Eval(h, Column(c), b.records[i], b.schema).value] + []);
    }
    TypedRowsAreSortable(h, order, b.records, b.schema, [t]);
  }

  /** ORDER BY one typed column: ascending, no row stands before a row with a smaller value, and LIMIT keeps rows with
      the smallest ones; descending the other way round. Nulls count as smallest. */
  lemma OrderByColumn(env: Env, input: Plan, c: string, ascending: bool, count: nat, b: Batch, t: ColumnType)
    returns (out: seq<Record>)
    requires LibraryIsStable(env.host) && Denote(input, env) == Ok(b) && ValidBatch(b)
    requires IsTypedColumn(env.host, c, t, b)
    ensures Denote(Limit(Sort(input, [SortExpr(Column(c), ascending)], b.schema), count, b.schema), env)
         == Ok(Batch(b.schema, Top(out, count)))
    ensures multiset(out) == multiset(b.records)
    ensures forall i, j :: 0 <= i < j < |out| ==>
      var x, y := KeyValue(env.host, Column(c), out[i], b.schema), KeyValue(env.host, Column(c), out[j], b.schema);
      if ascending then !Smaller(env.host, y, x) else !Smaller(env.host, x, y)
  {
    hide Denote, IsTypedColumn, Sortable, LibraryIsStable, Smaller, KeyValue, RowRanksAfter;
    OneColumnIsSortable(env.host, c, ascending, t, b);
    out := OrderByLimitKeepsTop(env, input, [SortExpr(Column(c), ascending)], count, b);
    forall i, j | 0 <= i < j < |out|
      ensures var x := KeyValue(env.host, Column(c), out[i], b.schema);
              var y := KeyValue(env.host, Column(c), out[j], b.schema);
              if ascending then !Smaller(env.host, y, x) else !Smaller(env.host, x, y)
    {
      OneExpressionRanks(env.host, Column(c), ascending, b.schema, out[i], out[j]);
    }
  }
}
