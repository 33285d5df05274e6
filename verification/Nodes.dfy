/** What each executed node returns (crates/rspark-exec/src/executor.rs:197-311), in terms of its input's rows. */
module Nodes {
  import opened Results
  import opened Values
  import opened Records
  import opened Expressions
  import opened Plans
  import opened Subsequences
  import opened Operators
  import opened Distincts
  import opened Sorting
  import opened Executor
  import opened NaturalJoins

  // ----- scan -----

  /** A scan asks its source for the path, kind and schema of the plan, and returns the rows it gets; without rows
      it has the plan's schema. */
  lemma ScanNode(table: string, path: string, source: string, schema: Schema, env: Env)
    ensures var r := Denote(Scan(table, path, source, schema), env);
            match env.scan(path, source, schema)
            case Err(e) => r == Err(e)
            case Ok(b) => r.Ok? && r.value.records == b.records
                          && r.value.schema == if b.records == [] then schema else b.schema
  {
  }

  // ----- filter -----

  /** A filter keeps, in order, exactly the rows on which the predicate is true. */
  lemma FilterNode(input: Plan, e: Expr, schema: Schema, env: Env, b: Batch, out: Batch)
    requires Denote(input, env) == Ok(b) && Denote(Filter(input, e, schema), env) == Ok(out)
    ensures out.schema == schema
    ensures out.records
         == Select(b.records, seq(|b.records|, i requires 0 <= i < |b.records| =>
              EvalPredicate(env.host, e, b.records[i], b.schema) == Ok(true)))
  {
    hide EvalPredicate, ValidBatch, AllFit;
    FilterKeepsTrueRows(env.host, e, b.records, b.schema);
    assert Truths(env.host, e, b.records, b.schema)
        == seq(|b.records|, i requires 0 <= i < |b.records| =>
             EvalPredicate(env.host, e, b.records[i], b.schema) == Ok(true));
  }

  // ----- projection -----

  /** The cells that one SELECT item contributes to the row. */
  ghost predicate Contributes(h: Host, e: Expr, row: Record, schema: Schema, cells: Record) {
    match e
    case Star => cells == row
    case Aggregate(_, _, _) => |cells| == 1 && Lookup(schema, DisplayName(h, e), row) == Ok(cells[0])
    case Aliased(i, a) =>
      |cells| == 1
      && (if i.Aggregate? then Lookup(schema, a, row) == Ok(cells[0]) else Eval(h, i, row, schema) == Ok(cells[0]))
    case _ => |cells| == 1 && Eval(h, e, row, schema) == Ok(cells[0])
  }

  /** The output row is made of the items' cells, one item after the other. */
  ghost predicate IsProjection(h: Host, es: seq<Expr>, row: Record, schema: Schema, out: Record) {
    if es == [] then out == []
    else
      exists n: nat :: n <= |out| && Contributes(h, es[0], row, schema, out[..n])
                       && IsProjection(h, es[1..], row, schema, out[n..])
  }

  lemma {:induction false} ProjectionIs(h: Host, es: seq<Expr>, row: Record, schema: Schema)
    requires ProjectValues(h, es, row, schema).Ok?
    ensures IsProjection(h, es, row, schema, ProjectValues(h, es, row, schema).value)
  {
    hide Eval, Lookup, DisplayName;
    if es != [] {
      ProjectionIs(h, es[1..], row, schema);
      var cells, rest := ProjectItem(h, es[0], row, schema).value, ProjectValues(h, es[1..], row, schema).value;
      var out := ProjectValues(h, es, row, schema).value;
      assert out == cells + rest;
      ItemContributes(h, es[0], row, schema);
      assert out[..|cells|] == cells && out[|cells|..] == rest;
    }
  }

  lemma ItemContributes(h: Host, e: Expr, row: Record, schema: Schema)
    requires ProjectItem(h, e, row, schema).Ok?
    ensures Contributes(h, e, row, schema, ProjectItem(h, e, row, schema).value)
  {
    hide Eval, Lookup;
  }

  /** Without `*` the projection has one cell per item: the item's value. */
  lemma {:induction false} ProjectionCells(h: Host, es: seq<Expr>, row: Record, schema: Schema, out: Record)
    requires IsProjection(h, es, row, schema, out) && forall k :: 0 <= k < |es| ==> !es[k].Star?
    ensures |out| == |es|
    ensures forall k :: 0 <= k < |es| ==> Contributes(h, es[k], row, schema, [out[k]])
  {
    hide Eval, Lookup, DisplayName;
    if es != [] {
      var n: nat :| n <= |out| && Contributes(h, es[0], row, schema, out[..n])
                    && IsProjection(h, es[1..], row, schema, out[n..]);
      assert !es[0].Star?;
      assert n == 1;
      assert out[..1] == [out[0]];
      ProjectionCells(h, es[1..], row, schema, out[1..]);
      assert forall k :: 1 <= k < |es| ==> es[k] == es[1..][k - 1] && out[k] == out[1..][k - 1];
    }
  }

  /** A projection returns one row per input row, in order, each made of the items' cells for its input row. */
  lemma ProjectNodeIs(input: Plan, es: seq<Expr>, schema: Schema, env: Env, b: Batch, out: Batch)
    requires Denote(input, env) == Ok(b) && Denote(Project(input, es, schema), env) == Ok(out)
    ensures out.schema == schema && |out.records| == |b.records|
    ensures forall i :: 0 <= i < |b.records| ==> IsProjection(env.host, es, b.records[i], b.schema, out.records[i])
  {
    hide IsProjection, ProjectValues, ValidBatch, AllFit;
    var h := env.host;
    if es == [Star] {
      forall i | 0 <= i < |b.records|
        ensures IsProjection(h, es, b.records[i], b.schema, out.records[i])
      {
        StarIsTheRow(h, b.records[i], b.schema);
      }
    } else {
      ProjectRowsPointwise(h, es, b.records, b.schema, schema);
      forall i | 0 <= i < |b.records|
        ensures IsProjection(h, es, b.records[i], b.schema, out.records[i])
      {
        assert ProjectedRow(h, es, b.records[i], b.schema, schema) == Ok(out.records[i]);
        ProjectionIs(h, es, b.records[i], b.schema);
      }
    }
  }

  lemma StarIsTheRow(h: Host, row: Record, schema: Schema)
    ensures IsProjection(h, [Star], row, schema, row)
  {
    assert [Star][1..] == [];
    assert row[..|row|] == row && row[|row|..] == [];
    assert IsProjection(h, [], row, schema, row[|row|..]);
  }

  // ----- limit -----

  /** A limit keeps the first `count` rows, or all if there are fewer. */
  lemma LimitNode(input: Plan, count: nat, schema: Schema, env: Env, b: Batch, out: Batch)
    requires Denote(input, env) == Ok(b) && Denote(Limit(input, count, schema), env) == Ok(out)
    ensures out.schema == schema && out.records == b.records[..if count < |b.records| then count else |b.records|]
  {
    hide ValidBatch, AllFit;
    assert b.records[..|b.records|] == b.records;
  }

  // ----- distinct -----

  /** An executed DISTINCT returns the subsequence of first occurrences by key: keys are distinct, and every key of
      the input occurs. */
  lemma DistinctNode(input: Plan, schema: Schema, env: Env, b: Batch, out: Batch)
    requires Denote(input, env) == Ok(b) && Denote(Distinct(input, schema), env) == Ok(out)
    ensures out.schema == schema && out.records == Select(b.records, Firsts(env.host, b.records))
    ensures KeysDistinct(env.host, out.records)
    ensures forall i :: 0 <= i < |b.records| ==>
      KeyOccurs(env.host, RowKey(env.host, b.records[i]), out.records, |out.records|)
  {
    hide ValidBatch, AllFit, KeyOccurs, KeysDistinct, Select, Firsts, FirstOccurrences;
    DistinctIsFirsts(env.host, b.records);
    DistinctKeys(env.host, b.records);
    EveryKeyOccurs(env.host, b.records);
  }

  lemma EveryKeyOccurs(h: Host, rows: seq<Record>)
    ensures var out := DistinctRows(h, rows);
      forall i :: 0 <= i < |rows| ==> KeyOccurs(h, RowKey(h, rows[i]), out, |out|)
  {
    hide RowKey, KeyOccurs, FirstOccurrences;
    forall i | 0 <= i < |rows|
      ensures KeyOccurs(h, RowKey(h, rows[i]), DistinctRows(h, rows), |DistinctRows(h, rows)|)
    {
      EveryKeyKept(h, rows, |rows|, i);
    }
  }

  lemma {:induction false} EveryKeyKept(h: Host, rows: seq<Record>, n: nat, i: nat)
    requires i < n <= |rows|
    ensures var out := FirstOccurrences(h, rows, n); KeyOccurs(h, RowKey(h, rows[i]), out, |out|)
  {
    hide RowKey;
    var before, out := FirstOccurrences(h, rows, n - 1), FirstOccurrences(h, rows, n);
    var j: nat := i;
    if i == n - 1 && KeyOccurs(h, RowKey(h, rows[i]), rows, n - 1) {
      j :| 0 <= j < n - 1 && RowKey(h, rows[j]) == RowKey(h, rows[i]);
    }
    if j < n - 1 {
      EveryKeyKept(h, rows, n - 1, j);
      var k :| 0 <= k < |before| && RowKey(h, before[k]) == RowKey(h, rows[j]);
      assert out[k] == before[k];
    } else {
      assert out[|out| - 1] == rows[i];
    }
  }

  /** On integer and boolean columns with nulls it is row deduplication. */
  lemma DistinctNodeOnPlainColumns(input: Plan, schema: Schema, env: Env, b: Batch, out: Batch, kinds: seq<Kind>)
    requires Denote(input, env) == Ok(b) && Denote(Distinct(input, schema), env) == Ok(out)
    requires PlainColumns(b.records, kinds)
    ensures out.records == Deduplicated(b.records)
    ensures NoDuplicates(out.records) && Elements(out.records) == Elements(b.records)
  {
    hide ValidBatch, AllFit, PlainColumns;
    DistinctOnPlainColumns(env.host, b.records, kinds);
    DistinctIsFirsts(env.host, b.records);
    DistinctNode(input, schema, env, b, out);
    DeduplicatedIs(b.records);
  }

  lemma {:induction false} DeduplicatedIs(rows: seq<Record>)
    ensures NoDuplicates(Deduplicated(rows)) && Elements(Deduplicated(rows)) == Elements(rows)
  {
    if rows != [] {
      var n := |rows| - 1;
      DeduplicatedIs(rows[..n]);
      var before := Deduplicated(rows[..n]);
      assert rows[n] in before <==> rows[n] in Elements(before);
      assert rows == rows[..n] + [rows[n]];
      forall x
        ensures x in Deduplicated(rows) <==> x in rows
      {
        assert x in before <==> x in Elements(before);
        assert x in rows[..n] <==> x in Elements(rows[..n]);
      }
    }
  }

  /** A second DISTINCT changes nothing. */
  lemma DistinctNodeTwice(input: Plan, schema: Schema, env: Env, out: Batch)
    requires Denote(Distinct(input, schema), env) == Ok(out)
    ensures Denote(Distinct(Distinct(input, schema), schema), env) == Ok(out)
  {
    hide ValidBatch, DistinctRows;
    DistinctIdempotent(env.host, Denote(input, env).value.records);
  }

  // ----- left outer join -----

  /** No right row agrees with the left row. */
  ghost predicate Unmatched(l: Record, rights: seq<Record>, ls: Schema, rs: Schema, pairs: JoinPairs) {
    forall j :: 0 <= j < |rights| ==> !RowsAgree(l, rights[j], ls, rs, pairs)
  }

  lemma {:induction false} MatchesExactly(l: Record, rights: seq<Record>, ls: Schema, rs: Schema, pairs: JoinPairs)
    ensures MatchesOf(l, rights, ls, rs, pairs) == [] <==> Unmatched(l, rights, ls, rs, pairs)
  {
    hide RowsAgree;
    if rights != [] {
      var n := |rights| - 1;
      MatchesExactly(l, rights[..n], ls, rs, pairs);
      assert forall j :: 0 <= j < n ==> rights[..n][j] == rights[j];
    }
  }

  /** A left outer join differs from the inner one in one row per unmatched left row: the row and nulls. */
  lemma LeftOuterRow(l: Record, rights: seq<Record>, ls: Schema, rs: Schema, pairs: JoinPairs)
    ensures Unmatched(l, rights, ls, rs, pairs) ==>
      && RowsFor(l, rights, ls, rs, pairs, Inner) == []
      && |RowsFor(l, rights, ls, rs, pairs, LeftOuter)| == 1
      && var row := RowsFor(l, rights, ls, rs, pairs, LeftOuter)[0];
         |row| == |l| + |KeptFields(rs, pairs)| && row[..|l|] == l && forall c :: |l| <= c < |row| ==> row[c] == Null
    ensures !Unmatched(l, rights, ls, rs, pairs) ==>
      RowsFor(l, rights, ls, rs, pairs, LeftOuter) == RowsFor(l, rights, ls, rs, pairs, Inner) != []
  {
    MatchesExactly(l, rights, ls, rs, pairs);
  }

  // ----- join -----

  /** Two rows agree on a pair of columns unless both sides have theirs and the values differ. */
  lemma PairAgreesExactly(l: Record, r: Record, ls: Schema, rs: Schema, pairs: JoinPairs)
    ensures RowsAgree(l, r, ls, rs, pairs)
       <==> forall k :: 0 <= k < |pairs| && HasColumn(ls, pairs[k].0) && HasColumn(rs, pairs[k].1) ==>
              ValueEq(Read(ls, l, pairs[k].0), Read(rs, r, pairs[k].1))
  {
    hide ValueEq;
    forall k | 0 <= k < |pairs|
      ensures PairAgrees(l, r, ls, rs, pairs[k])
         <==> (HasColumn(ls, pairs[k].0) && HasColumn(rs, pairs[k].1) ==>
                 ValueEq(Read(ls, l, pairs[k].0), Read(rs, r, pairs[k].1)))
    {
      assert HasColumn(ls, pairs[k].0) <==> IndexOf(ls, pairs[k].0).Some?;
      assert HasColumn(rs, pairs[k].1) <==> IndexOf(rs, pairs[k].1).Some?;
    }
  }

  /** One joined row if the rows agree, and none otherwise. */
  ghost function Joined(l: Record, r: Record, ls: Schema, rs: Schema, pairs: JoinPairs): seq<Record> {
    if RowsAgree(l, r, ls, rs, pairs) then [JoinedRow(l, r, rs, pairs)] else []
  }

  /** The rows of one left row: a joined row per agreeing right row, or itself and nulls if it has none and the join
      is a left outer one. */
  ghost function RowsOfLeft(l: Record, rights: seq<Record>, ls: Schema, rs: Schema, pairs: JoinPairs,
                            how: JoinType): seq<Record> {
    if how == LeftOuter && Unmatched(l, rights, ls, rs, pairs) then [l + Nulls(|KeptFields(rs, pairs)|)]
    else FlatMap((r: Record) => Joined(l, r, ls, rs, pairs), rights)
  }

  lemma {:induction false} MatchesAreJoined(l: Record, rights: seq<Record>, ls: Schema, rs: Schema, pairs: JoinPairs)
    ensures MatchesOf(l, rights, ls, rs, pairs) == FlatMap((r: Record) => Joined(l, r, ls, rs, pairs), rights)
  {
    hide RowsAgree, JoinedRow;
    if rights != [] {
      MatchesAreJoined(l, rights[..|rights| - 1], ls, rs, pairs);
    }
  }

  lemma {:induction false} JoinRowsAre(lefts: seq<Record>, rights: seq<Record>, ls: Schema, rs: Schema,
                                       pairs: JoinPairs, how: JoinType)
    ensures JoinRows(lefts, rights, ls, rs, pairs, how)
         == FlatMap((l: Record) => RowsOfLeft(l, rights, ls, rs, pairs, how), lefts)
  {
    hide Unmatched, MatchesOf, Joined;
    if lefts != [] {
      var n := |lefts| - 1;
      JoinRowsAre(lefts[..n], rights, ls, rs, pairs, how);
      MatchesAreJoined(lefts[n], rights, ls, rs, pairs);
      MatchesExactly(lefts[n], rights, ls, rs, pairs);
    }
  }

  /** An executed join goes over the left rows and, for each, over the right rows; right and full outer joins fail. */
  lemma JoinNodeRows(left: Plan, right: Plan, pairs: JoinPairs, how: JoinType, schema: Schema, env: Env, lb: Batch,
                     rb: Batch, out: Batch)
    requires Denote(left, env) == Ok(lb) && Denote(right, env) == Ok(rb)
    requires Denote(Join(left, right, pairs, how, schema), env) == Ok(out)
    ensures how in {Inner, LeftOuter} && lb.schema == OutputSchema(left) && out.schema == schema
    ensures out.records
         == FlatMap((l: Record) => RowsOfLeft(l, rb.records, lb.schema, rb.schema, pairs, how), lb.records)
  {
    hide ValidBatch, AllFit, JoinRows, RowsOfLeft, JoinSchema;
    JoinRowsAre(lb.records, rb.records, lb.schema, rb.schema, pairs, how);
  }
}
