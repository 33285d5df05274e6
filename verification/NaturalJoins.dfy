/** A FROM list is an n-way natural join (crates/rspark-sql/src/planner.rs:183-253,
    crates/rspark-exec/src/operators.rs:512-572). */
module NaturalJoins {
  import opened Results
  import opened Values
  import opened Records
  import opened Plans
  import opened Subsequences
  import opened Operators
  import opened Executor
  import opened Planner
  import Shapes

  type Tables = seq<Batch>

  /** A table of a natural join: distinct column names, rows that fit. */
  ghost predicate IsTable(b: Batch) {
    DistinctNames(b.schema) && ValidBatch(b)
  }

  ghost predicate AreTables(ts: Tables) {
    forall i :: 0 <= i < |ts| ==> IsTable(ts[i])
  }

  // ----- the reference meaning -----

  /** One row number per table. */
  ghost predicate IsTuple(ts: Tables, tup: seq<nat>) {
    |tup| == |ts| && forall i :: 0 <= i < |ts| ==> tup[i] < |ts[i].records|
  }

  /** Reading a row by column name. */
  function Read(schema: Schema, row: Record, c: string): Value {
    match IndexOf(schema, c)
    case Some(i) => GetOrNull(row, i)
    case None => Null
  }

  /** The value of column `c` in row `r` of a table. */
  function Cell(b: Batch, r: nat, c: string): Value
    requires r < |b.records|
  {
    Read(b.schema, b.records[r], c)
  }

  ghost predicate TablesAgree(ts: Tables, tup: seq<nat>, i: nat, j: nat)
    requires IsTuple(ts, tup) && i < |ts| && j < |ts|
  {
    forall c :: HasColumn(ts[i].schema, c) && HasColumn(ts[j].schema, c) ==>
      ValueEq(Cell(ts[i], tup[i], c), Cell(ts[j], tup[j], c))
  }

  /** All tables that share a column name agree on it. */
  ghost predicate Consistent(ts: Tables, tup: seq<nat>)
    requires IsTuple(ts, tup)
  {
    forall i, j :: 0 <= i < j < |ts| ==> TablesAgree(ts, tup, i, j)
  }

  /** The fields of `right` whose name `seen` does not have, and a row's values for them. */
  ghost function NewFields(seen: Schema, right: Schema): Schema {
    if right == [] then []
    else (if HasColumn(seen, right[0].name) then [] else [right[0]]) + NewFields(seen, right[1..])
  }

  ghost function NewValues(seen: Schema, right: Schema, row: Record): Record
    requires |row| == |right|
  {
    if right == [] then []
    else (if HasColumn(seen, right[0].name) then [] else [row[0]]) + NewValues(seen, right[1..], row[1..])
  }

  /** Columns in order of first appearance. */
  ghost function MergedSchema(ts: Tables): Schema {
    if ts == [] then []
    else
      var n := |ts| - 1;
      MergedSchema(ts[..n]) + NewFields(MergedSchema(ts[..n]), ts[n].schema)
  }

  ghost function MergedRow(ts: Tables, tup: seq<nat>): Record
    requires AreTables(ts) && IsTuple(ts, tup)
  {
    if ts == [] then []
    else
      var n := |ts| - 1;
      MergedRow(ts[..n], tup[..n]) + NewValues(MergedSchema(ts[..n]), ts[n].schema, ts[n].records[tup[n]])
  }

  /** Every tuple extended by every row number below `m`, innermost last. */
  ghost function ExtendOne(tup: seq<nat>, m: nat): seq<seq<nat>> {
    if m == 0 then [] else ExtendOne(tup, m - 1) + [tup + [m - 1]]
  }

  ghost function ExtendAll(tups: seq<seq<nat>>, m: nat): seq<seq<nat>> {
    if tups == [] then []
    else ExtendAll(tups[..|tups| - 1], m) + ExtendOne(tups[|tups| - 1], m)
  }

  /** All tuples of row numbers, in lexicographic order. */
  ghost function AllTuples(ts: Tables): seq<seq<nat>> {
    if ts == [] then [[]]
    else
      var n := |ts| - 1;
      ExtendAll(AllTuples(ts[..n]), |ts[n].records|)
  }

  ghost function TupleRows(ts: Tables, tup: seq<nat>): seq<Record> {
    if AreTables(ts) && IsTuple(ts, tup) && Consistent(ts, tup) then [MergedRow(ts, tup)] else []
  }

  /** One merged row per consistent tuple, in tuple order. */
  ghost function RowsOfTuples(ts: Tables, tups: seq<seq<nat>>): seq<Record> {
    FlatMap((tup: seq<nat>) => TupleRows(ts, tup), tups)
  }

  ghost function NaturalJoin(ts: Tables): Batch {
    Batch(MergedSchema(ts), RowsOfTuples(ts, AllTuples(ts)))
  }

  // ----- the tuples are exactly the row-number tuples, in strictly increasing order -----

  ghost predicate LexLess(a: seq<nat>, b: seq<nat>) {
    exists i :: 0 <= i < |a| && i < |b| && a[..i] == b[..i] && a[i] < b[i]
  }

  lemma {:induction false} ExtendOneAre(tup: seq<nat>, m: nat)
    ensures |ExtendOne(tup, m)| == m
    ensures forall k :: 0 <= k < m ==> ExtendOne(tup, m)[k] == tup + [k]
  {
    if m > 0 {
      ExtendOneAre(tup, m - 1);
    }
  }

  lemma {:induction false} ExtendAllAre(ts: Tables, tups: seq<seq<nat>>, m: nat)
    requires forall k :: 0 <= k < |tups| ==> IsTuple(ts, tups[k])
    ensures forall k :: 0 <= k < |ExtendAll(tups, m)| ==>
      |ExtendAll(tups, m)[k]| == |ts| + 1 && ExtendAll(tups, m)[k][|ts|] < m && ExtendAll(tups, m)[k][..|ts|] in tups
  {
    if tups != [] {
      var n := |tups| - 1;
      ExtendAllAre(ts, tups[..n], m);
      ExtendOneAre(tups[n], m);
      var before := ExtendAll(tups[..n], m);
      forall k | 0 <= k < |ExtendAll(tups, m)|
        ensures var t := ExtendAll(tups, m)[k]; |t| == |ts| + 1 && t[|ts|] < m && t[..|ts|] in tups
      {
        if k >= |before| {
          assert ExtendAll(tups, m)[k] == tups[n] + [k - |before|];
          assert (tups[n] + [k - |before|])[..|ts|] == tups[n];
        }
      }
    }
  }

  lemma {:induction false} AllTuplesAreTuples(ts: Tables)
    ensures forall k :: 0 <= k < |AllTuples(ts)| ==> IsTuple(ts, AllTuples(ts)[k])
  {
    if ts != [] {
      var n := |ts| - 1;
      AllTuplesAreTuples(ts[..n]);
      var tups := AllTuples(ts[..n]);
      ExtendAllAre(ts[..n], tups, |ts[n].records|);
      forall k | 0 <= k < |AllTuples(ts)|
        ensures IsTuple(ts, AllTuples(ts)[k])
      {
        var t := AllTuples(ts)[k];
        assert t[..n] in tups;
        assert IsTuple(ts[..n], t[..n]);
        assert forall i :: 0 <= i < n ==> t[i] == t[..n][i];
      }
    }
  }

  lemma {:induction false} ExtendAllHas(tups: seq<seq<nat>>, m: nat, tup: seq<nat>, r: nat)
    requires tup in tups && r < m
    ensures tup + [r] in ExtendAll(tups, m)
  {
    var n := |tups| - 1;
    ExtendOneAre(tups[n], m);
    if tups[n] == tup {
      assert ExtendOne(tup, m)[r] == tup + [r];
    } else {
      assert tup in tups[..n];
      ExtendAllHas(tups[..n], m, tup, r);
    }
  }

  /** Every tuple of row numbers occurs. */
  lemma {:induction false} AllTuplesComplete(ts: Tables, tup: seq<nat>)
    requires IsTuple(ts, tup)
    ensures tup in AllTuples(ts)
  {
    if ts != [] {
      var n := |ts| - 1;
      AllTuplesComplete(ts[..n], tup[..n]);
      ExtendAllHas(AllTuples(ts[..n]), |ts[n].records|, tup[..n], tup[n]);
      assert tup[..n] + [tup[n]] == tup;
    }
  }

  ghost predicate LexIncreasing(tups: seq<seq<nat>>) {
    forall i, j :: 0 <= i < j < |tups| ==> LexLess(tups[i], tups[j])
  }

  lemma LexLessExtends(a: seq<nat>, b: seq<nat>, x: nat, y: nat)
    requires LexLess(a, b)
    ensures LexLess(a + [x], b + [y])
  {
    var i :| 0 <= i < |a| && i < |b| && a[..i] == b[..i] && a[i] < b[i];
    assert (a + [x])[..i] == a[..i] && (b + [y])[..i] == b[..i];
  }

  lemma LexLessLast(a: seq<nat>, x: nat, y: nat)
    requires x < y
    ensures LexLess(a + [x], a + [y])
  {
    assert (a + [x])[..|a|] == a == (a + [y])[..|a|];
  }

  lemma {:induction false} ExtendAllIncreasing(ts: Tables, tups: seq<seq<nat>>, m: nat)
    requires forall k :: 0 <= k < |tups| ==> IsTuple(ts, tups[k])
    requires LexIncreasing(tups)
    ensures LexIncreasing(ExtendAll(tups, m))
  {
    if tups != [] {
      var n := |tups| - 1;
      var before, last := ExtendAll(tups[..n], m), ExtendOne(tups[n], m);
      ExtendAllIncreasing(ts, tups[..n], m);
      ExtendAllAre(ts, tups[..n], m);
      ExtendOneAre(tups[n], m);
      var all := before + last;
      forall i, j | 0 <= i < j < |all|
        ensures LexLess(all[i], all[j])
      {
        if |before| <= i {
          LexLessLast(tups[n], i - |before|, j - |before|);
        } else if |before| <= j {
          var t := before[i];
          assert t[..|ts|] in tups[..n];
          var k :| 0 <= k < n && tups[k] == t[..|ts|];
          LexLessExtends(tups[k], tups[n], t[|ts|], j - |before|);
          assert t == t[..|ts|] + [t[|ts|]];
        }
      }
    }
  }

  /** The tuples come in strictly increasing lexicographic order, so none occurs twice. */
  lemma {:induction false} AllTuplesIncreasing(ts: Tables)
    ensures LexIncreasing(AllTuples(ts))
  {
    if ts != [] {
      var n := |ts| - 1;
      AllTuplesIncreasing(ts[..n]);
      AllTuplesAreTuples(ts[..n]);
      ExtendAllIncreasing(ts[..n], AllTuples(ts[..n]), |ts[n].records|);
    }
  }

  // ----- merged schemas and rows -----

  lemma {:induction false} NewFieldsAre(seen: Schema, right: Schema)
    requires DistinctNames(right)
    ensures DistinctNames(NewFields(seen, right))
    ensures forall c :: HasColumn(NewFields(seen, right), c) <==> HasColumn(right, c) && !HasColumn(seen, c)
  {
    if right != [] {
      NewFieldsAre(seen, right[1..]);
      HasColumnCons(right);
      var rest := NewFields(seen, right[1..]);
      if !HasColumn(seen, right[0].name) {
        assert ([right[0]] + rest)[1..] == rest;
        HasColumnCons([right[0]] + rest);
        assert !HasColumn(right[1..], right[0].name);
        assert !HasColumn(rest, right[0].name);
      } else {
        assert NewFields(seen, right) == rest;
      }
    }
  }

  lemma HasColumnCons(s: Schema)
    requires s != []
    ensures forall c :: HasColumn(s, c) <==> s[0].name == c || HasColumn(s[1..], c)
  {
    assert forall i :: 1 <= i < |s| ==> s[i] == s[1..][i - 1];
    forall c | HasColumn(s, c) && s[0].name != c
      ensures HasColumn(s[1..], c)
    {
      var i :| 0 <= i < |s| && s[i].name == c;
      assert s[1..][i - 1].name == c;
    }
    forall c | HasColumn(s[1..], c)
      ensures HasColumn(s, c)
    {
      var i :| 0 <= i < |s| - 1 && s[1..][i].name == c;
      assert s[i + 1].name == c;
    }
  }

  lemma HasColumnAppend(a: Schema, b: Schema)
    ensures forall c :: HasColumn(a + b, c) <==> HasColumn(a, c) || HasColumn(b, c)
  {
    var s := a + b;
    forall c | HasColumn(s, c)
      ensures HasColumn(a, c) || HasColumn(b, c)
    {
      var i :| 0 <= i < |s| && s[i].name == c;
      assert i < |a| ==> a[i].name == c;
      assert i >= |a| ==> b[i - |a|].name == c;
    }
    forall c | HasColumn(a, c)
      ensures HasColumn(s, c)
    {
      var i :| 0 <= i < |a| && a[i].name == c;
      assert s[i].name == c;
    }
    forall c | HasColumn(b, c)
      ensures HasColumn(s, c)
    {
      var i :| 0 <= i < |b| && b[i].name == c;
      assert s[|a| + i].name == c;
    }
  }

  /** The output schema is duplicate-free and has exactly the tables' columns. */
  lemma {:induction false} MergedSchemaAre(ts: Tables)
    requires AreTables(ts)
    ensures DistinctNames(MergedSchema(ts))
    ensures forall c :: HasColumn(MergedSchema(ts), c) <==> exists i :: 0 <= i < |ts| && HasColumn(ts[i].schema, c)
  {
    if ts != [] {
      var n := |ts| - 1;
      var before := MergedSchema(ts[..n]);
      var fresh_ := NewFields(before, ts[n].schema);
      MergedSchemaAre(ts[..n]);
      NewFieldsAre(before, ts[n].schema);
      HasColumnAppend(before, fresh_);
      assert DistinctNames(before + fresh_) by {
        forall i, j | 0 <= i < |before| && 0 <= j < |fresh_|
          ensures before[i].name != fresh_[j].name
        {
          assert HasColumn(before, before[i].name) && HasColumn(fresh_, fresh_[j].name);
        }
      }
      forall c
        ensures HasColumn(MergedSchema(ts), c) <==> exists i :: 0 <= i < |ts| && HasColumn(ts[i].schema, c)
      {
        if HasColumn(before, c) {
          var i :| 0 <= i < n && HasColumn(ts[..n][i].schema, c);
          assert HasColumn(ts[i].schema, c);
        }
        if i :| 0 <= i < |ts| && HasColumn(ts[i].schema, c) {
          if i < n {
            assert HasColumn(ts[..n][i].schema, c);
          }
        }
      }
    }
  }

  lemma {:induction false} NewValuesFit(seen: Schema, right: Schema, row: Record)
    requires |row| == |right|
    ensures |NewValues(seen, right, row)| == |NewFields(seen, right)|
  {
    if right != [] {
      NewValuesFit(seen, right[1..], row[1..]);
    }
  }

  lemma {:induction false} MergedRowWidth(ts: Tables, tup: seq<nat>)
    requires AreTables(ts) && IsTuple(ts, tup)
    ensures |MergedRow(ts, tup)| == |MergedSchema(ts)|
  {
    if ts != [] {
      var n := |ts| - 1;
      MergedRowWidth(ts[..n], tup[..n]);
      NewValuesFit(MergedSchema(ts[..n]), ts[n].schema, ts[n].records[tup[n]]);
    }
  }

  lemma ReadAppend(a: Schema, b: Schema, x: Record, y: Record, c: string)
    requires |x| == |a| && |y| == |b|
    ensures HasColumn(a, c) ==> Read(a + b, x + y, c) == Read(a, x, c)
    ensures !HasColumn(a, c) ==> Read(a + b, x + y, c) == Read(b, y, c)
  {
    var i, ia, ib := IndexOf(a + b, c), IndexOf(a, c), IndexOf(b, c);
    assert forall k :: 0 <= k < |a| ==> (a + b)[k] == a[k];
    assert forall k :: 0 <= k < |b| ==> (a + b)[|a| + k] == b[k];
    if ia.Some? {
      assert i == ia;
    } else if ib.Some? {
      assert i == Some(|a| + ib.value);
    } else {
      assert i.None?;
    }
  }

  lemma {:induction false} ReadNewValues(seen: Schema, right: Schema, row: Record, c: string)
    requires |row| == |right| && DistinctNames(right) && HasColumn(right, c) && !HasColumn(seen, c)
    ensures Read(NewFields(seen, right), NewValues(seen, right, row), c) == Read(right, row, c)
  {
    NewValuesFit(seen, right[1..], row[1..]);
    HasColumnCons(right);
    var a := if HasColumn(seen, right[0].name) then [] else [right[0]];
    var x := if HasColumn(seen, right[0].name) then [] else [row[0]];
    ReadAppend(a, NewFields(seen, right[1..]), x, NewValues(seen, right[1..], row[1..]), c);
    ReadAppend([right[0]], right[1..], [row[0]], row[1..], c);
    assert [right[0]] + right[1..] == right && [row[0]] + row[1..] == row;
    if right[0].name == c {
      assert a == [right[0]] && x == [row[0]];
    } else {
      assert !HasColumn(a, c) && !HasColumn([right[0]], c);
      assert HasColumn(right[1..], c);
      assert DistinctNames(right[1..]) by {
        assert forall i :: 0 <= i < |right| - 1 ==> right[1..][i] == right[i + 1];
      }
      ReadNewValues(seen, right[1..], row[1..], c);
    }
  }

  /** Table `f` is the first with column `c`, and the merged row shows its value there. */
  ghost predicate IsSource(ts: Tables, tup: seq<nat>, c: string, f: nat)
    requires AreTables(ts) && IsTuple(ts, tup) && f < |ts|
  {
    && HasColumn(ts[f].schema, c)
    && Read(MergedSchema(ts), MergedRow(ts, tup), c) == Cell(ts[f], tup[f], c)
    && forall k :: 0 <= k < f ==> !HasColumn(ts[k].schema, c)
  }

  /** Columns already merged keep their value ... */
  lemma ReadOld(ts: Tables, tup: seq<nat>, c: string)
    requires AreTables(ts) && IsTuple(ts, tup) && ts != [] && HasColumn(MergedSchema(ts[..|ts| - 1]), c)
    ensures Read(MergedSchema(ts), MergedRow(ts, tup), c)
         == Read(MergedSchema(ts[..|ts| - 1]), MergedRow(ts[..|ts| - 1], tup[..|ts| - 1]), c)
  {
    var n := |ts| - 1;
    var before := MergedSchema(ts[..n]);
    MergedRowWidth(ts[..n], tup[..n]);
    NewValuesFit(before, ts[n].schema, ts[n].records[tup[n]]);
    ReadAppend(before, NewFields(before, ts[n].schema), MergedRow(ts[..n], tup[..n]),
               NewValues(before, ts[n].schema, ts[n].records[tup[n]]), c);
  }

  /** ... and new ones show the last table's. */
  lemma ReadFresh(ts: Tables, tup: seq<nat>, c: string)
    requires AreTables(ts) && IsTuple(ts, tup) && ts != []
    requires !HasColumn(MergedSchema(ts[..|ts| - 1]), c) && HasColumn(ts[|ts| - 1].schema, c)
    ensures Read(MergedSchema(ts), MergedRow(ts, tup), c) == Cell(ts[|ts| - 1], tup[|ts| - 1], c)
  {
    var n := |ts| - 1;
    var before := MergedSchema(ts[..n]);
    MergedRowWidth(ts[..n], tup[..n]);
    NewValuesFit(before, ts[n].schema, ts[n].records[tup[n]]);
    ReadAppend(before, NewFields(before, ts[n].schema), MergedRow(ts[..n], tup[..n]),
               NewValues(before, ts[n].schema, ts[n].records[tup[n]]), c);
    ReadNewValues(before, ts[n].schema, ts[n].records[tup[n]], c);
  }

  /** Under each column name the merged row shows the value of the first table with that column. */
  lemma {:induction false} MergedRowReads(ts: Tables, tup: seq<nat>, i: nat, c: string)
    requires AreTables(ts) && IsTuple(ts, tup) && i < |ts| && HasColumn(ts[i].schema, c)
    ensures exists f :: 0 <= f <= i && IsSource(ts, tup, c, f)
  {
    var n := |ts| - 1;
    var prefix := ts[..n];
    MergedSchemaAre(prefix);
    if k :| 0 <= k < n && HasColumn(prefix[k].schema, c) {
      var j := if i < n then i else k;
      MergedRowReads(prefix, tup[..n], j, c);
      var f :| 0 <= f <= j && IsSource(prefix, tup[..n], c, f);
      ReadOld(ts, tup, c);
      SourceExtends(ts, tup, c, f);
    } else {
      assert i == n;
      ReadFresh(ts, tup, c);
      assert forall k :: 0 <= k < n ==> prefix[k] == ts[k];
      assert IsSource(ts, tup, c, n);
    }
  }

  lemma SourceExtends(ts: Tables, tup: seq<nat>, c: string, f: nat)
    requires AreTables(ts) && IsTuple(ts, tup) && f < |ts| - 1 && IsSource(ts[..|ts| - 1], tup[..|ts| - 1], c, f)
    requires Read(MergedSchema(ts), MergedRow(ts, tup), c)
          == Read(MergedSchema(ts[..|ts| - 1]), MergedRow(ts[..|ts| - 1], tup[..|ts| - 1]), c)
    ensures IsSource(ts, tup, c, f)
  {
    assert forall k :: 0 <= k < |ts| - 1 ==> ts[..|ts| - 1][k] == ts[k];
  }

  // ----- one join step -----

  /** The join columns of the next table are the columns already merged. */
  lemma JoinColumnsAreShared(seen: Schema, right: Schema)
    ensures forall c :: HasColumn(right, c) ==> (IsJoinColumn(SharedPairs(seen, right), c) <==> HasColumn(seen, c))
  {
    SharedPairsExact(seen, right);
  }

  lemma {:induction false} KeptFieldsAreNew(seen: Schema, right: Schema, i: nat, pairs: JoinPairs)
    requires i <= |right|
    requires forall c :: HasColumn(right, c) ==> (IsJoinColumn(pairs, c) <==> HasColumn(seen, c))
    ensures KeptFields(right[i..], pairs) == NewFields(seen, right[i..])
    decreases |right| - i
  {
    if i < |right| {
      assert right[i..][1..] == right[i + 1..];
      assert HasColumn(right, right[i].name);
      KeptFieldsAreNew(seen, right, i + 1, pairs);
    }
  }

  lemma {:induction false} KeptValuesAreNew(seen: Schema, right: Schema, row: Record, i: nat, pairs: JoinPairs)
    requires i <= |right| && |row| == |right| && DistinctNames(right)
    requires forall c :: HasColumn(right, c) ==> (IsJoinColumn(pairs, c) <==> HasColumn(seen, c))
    ensures KeptValues(row, right[i..], right, pairs) == NewValues(seen, right[i..], row[i..])
    decreases |right| - i
  {
    if i < |right| {
      assert right[i..][1..] == right[i + 1..] && row[i..][1..] == row[i + 1..];
      assert HasColumn(right, right[i].name);
      IndexOfOwnPosition(right, i);
      KeptValuesAreNew(seen, right, row, i + 1, pairs);
    }
  }

  /** Two rows have equal values under every column name both have. */
  ghost predicate RowsShare(ls: Schema, l: Record, rs: Schema, r: Record) {
    forall c :: HasColumn(ls, c) && HasColumn(rs, c) ==> ValueEq(Read(ls, l, c), Read(rs, r, c))
  }

  /** Agreement on the join pairs is agreement on every shared column. */
  lemma PairsAgreeOnShared(l: Record, r: Record, ls: Schema, rs: Schema)
    ensures RowsAgree(l, r, ls, rs, SharedPairs(ls, rs)) <==> RowsShare(ls, l, rs, r)
  {
    var pairs := SharedPairs(ls, rs);
    SharedPairsExact(ls, rs);
    if RowsAgree(l, r, ls, rs, pairs) {
      forall c | HasColumn(ls, c) && HasColumn(rs, c)
        ensures ValueEq(Read(ls, l, c), Read(rs, r, c))
      {
        var k :| 0 <= k < |pairs| && pairs[k].0 == c;
        assert PairAgrees(l, r, ls, rs, pairs[k]);
      }
    }
    if RowsShare(ls, l, rs, r) {
      forall k | 0 <= k < |pairs|
        ensures PairAgrees(l, r, ls, rs, pairs[k])
      {
        var c := pairs[k].0;
        assert ValueEq(Read(ls, l, c), Read(rs, r, c));
      }
    }
  }

  lemma PrefixTuple(ts: Tables, t: Batch, tup: seq<nat>, r: nat)
    requires IsTuple(ts, tup) && r < |t.records|
    ensures IsTuple(ts + [t], tup + [r])
  {
  }

  lemma AgreePrefix(ts: Tables, t: Batch, tup: seq<nat>, r: nat, i: nat, j: nat)
    requires IsTuple(ts, tup) && IsTuple(ts + [t], tup + [r]) && i < |ts| && j < |ts|
    ensures TablesAgree(ts + [t], tup + [r], i, j) <==> TablesAgree(ts, tup, i, j)
  {
    assert (ts + [t])[i] == ts[i] && (ts + [t])[j] == ts[j];
    assert (tup + [r])[i] == tup[i] && (tup + [r])[j] == tup[j];
  }

  /** If the next row agrees with all tables it agrees with the merged row ... */
  lemma ConsistentShares(ts: Tables, t: Batch, tup: seq<nat>, r: nat)
    requires AreTables(ts) && IsTuple(ts, tup) && r < |t.records|
    requires IsTuple(ts + [t], tup + [r]) && Consistent(ts + [t], tup + [r])
    ensures RowsShare(MergedSchema(ts), MergedRow(ts, tup), t.schema, t.records[r])
  {
    MergedSchemaAre(ts);
    forall c | HasColumn(MergedSchema(ts), c) && HasColumn(t.schema, c)
      ensures ValueEq(Read(MergedSchema(ts), MergedRow(ts, tup), c), Read(t.schema, t.records[r], c))
    {
      var i :| 0 <= i < |ts| && HasColumn(ts[i].schema, c);
      MergedRowReads(ts, tup, i, c);
      var f :| 0 <= f <= i && IsSource(ts, tup, c, f);
      assert (ts + [t])[f] == ts[f] && (tup + [r])[f] == tup[f] && (ts + [t])[|ts|] == t;
      assert TablesAgree(ts + [t], tup + [r], f, |ts|);
    }
  }

  /** ... and conversely, because the tables of a consistent tuple agree among themselves. */
  lemma SharesAgrees(ts: Tables, t: Batch, tup: seq<nat>, r: nat, i: nat)
    requires AreTables(ts) && IsTuple(ts, tup) && r < |t.records| && i < |ts|
    requires Consistent(ts, tup) && IsTuple(ts + [t], tup + [r])
    requires RowsShare(MergedSchema(ts), MergedRow(ts, tup), t.schema, t.records[r])
    ensures TablesAgree(ts + [t], tup + [r], i, |ts|)
  {
    var all, tup' := ts + [t], tup + [r];
    assert all[i] == ts[i] && tup'[i] == tup[i] && all[|ts|] == t && tup'[|ts|] == r;
    forall c | HasColumn(all[i].schema, c) && HasColumn(all[|ts|].schema, c)
      ensures ValueEq(Cell(all[i], tup'[i], c), Cell(all[|ts|], tup'[|ts|], c))
    {
      MergedRowReads(ts, tup, i, c);
      var f :| 0 <= f <= i && IsSource(ts, tup, c, f);
      MergedHas(ts, i, c);
      ValueEqChain(ts, tup, f, i, c, Read(t.schema, t.records[r], c));
    }
  }

  lemma MergedHas(ts: Tables, i: nat, c: string)
    requires AreTables(ts) && i < |ts| && HasColumn(ts[i].schema, c)
    ensures HasColumn(MergedSchema(ts), c)
  {
    MergedSchemaAre(ts);
  }

  lemma ValueEqChain(ts: Tables, tup: seq<nat>, f: nat, i: nat, c: string, v: Value)
    requires IsTuple(ts, tup) && Consistent(ts, tup) && f <= i < |ts|
    requires HasColumn(ts[f].schema, c) && HasColumn(ts[i].schema, c)
    requires ValueEq(Cell(ts[f], tup[f], c), v)
    ensures ValueEq(Cell(ts[i], tup[i], c), v)
  {
    if f < i {
      assert TablesAgree(ts, tup, f, i);
      assert ValueEq(Cell(ts[f], tup[f], c), Cell(ts[i], tup[i], c));
      ValueEqPartialEquivalence();
    }
  }

  lemma ConsistentStep(ts: Tables, t: Batch, tup: seq<nat>, r: nat)
    requires AreTables(ts) && IsTuple(ts, tup) && r < |t.records|
    requires Consistent(ts, tup) && IsTuple(ts + [t], tup + [r])
    ensures Consistent(ts + [t], tup + [r]) <==> RowsShare(MergedSchema(ts), MergedRow(ts, tup), t.schema, t.records[r])
  {
    if Consistent(ts + [t], tup + [r]) {
      ConsistentShares(ts, t, tup, r);
    }
    if RowsShare(MergedSchema(ts), MergedRow(ts, tup), t.schema, t.records[r]) {
      forall i, j | 0 <= i < j < |ts + [t]|
        ensures TablesAgree(ts + [t], tup + [r], i, j)
      {
        if j < |ts| {
          AgreePrefix(ts, t, tup, r, i, j);
        } else {
          SharesAgrees(ts, t, tup, r, i);
        }
      }
    }
  }

  lemma InconsistentStays(ts: Tables, t: Batch, tup: seq<nat>, r: nat)
    requires IsTuple(ts, tup) && IsTuple(ts + [t], tup + [r]) && !Consistent(ts, tup)
    ensures !Consistent(ts + [t], tup + [r])
  {
    var i, j :| 0 <= i < j < |ts| && !TablesAgree(ts, tup, i, j);
    AgreePrefix(ts, t, tup, r, i, j);
  }

  lemma MergedStep(ts: Tables, t: Batch, tup: seq<nat>, r: nat)
    requires AreTables(ts) && IsTable(t) && IsTuple(ts, tup) && r < |t.records| && IsTuple(ts + [t], tup + [r])
    ensures AreTables(ts + [t])
    ensures MergedRow(ts + [t], tup + [r])
         == JoinedRow(MergedRow(ts, tup), t.records[r], t.schema, SharedPairs(MergedSchema(ts), t.schema))
  {
    var ls, rs, row := MergedSchema(ts), t.schema, t.records[r];
    assert (ts + [t])[..|ts|] == ts && (tup + [r])[..|ts|] == tup;
    JoinColumnsAreShared(ls, rs);
    KeptValuesAreNew(ls, rs, row, 0, SharedPairs(ls, rs));
    assert rs[0..] == rs && row[0..] == row;
  }

  // ----- the theorem -----

  ghost predicate AllTuplesOf(ts: Tables, tups: seq<seq<nat>>) {
    forall k :: 0 <= k < |tups| ==> IsTuple(ts, tups[k])
  }

  lemma RowsOfSnoc(ts: Tables, tups: seq<seq<nat>>, tup: seq<nat>)
    ensures RowsOfTuples(ts, tups + [tup]) == RowsOfTuples(ts, tups) + TupleRows(ts, tup)
  {
    FlatMapSnoc((tup: seq<nat>) => TupleRows(ts, tup), tups, tup);
  }

  lemma RowsOfAppend(ts: Tables, a: seq<seq<nat>>, b: seq<seq<nat>>)
    ensures RowsOfTuples(ts, a + b) == RowsOfTuples(ts, a) + RowsOfTuples(ts, b)
  {
    FlatMapAppend((tup: seq<nat>) => TupleRows(ts, tup), a, b);
  }

  /** One pair of rows: the executor's verdict and output against the extended tuple's. */
  lemma TupleRowsStep(ts: Tables, t: Batch, tup: seq<nat>, r: nat)
    requires AreTables(ts) && IsTable(t) && IsTuple(ts, tup) && r < |t.records|
    ensures var ls := MergedSchema(ts); var pairs := SharedPairs(ls, t.schema);
      TupleRows(ts + [t], tup + [r])
      == if Consistent(ts, tup) && RowsAgree(MergedRow(ts, tup), t.records[r], ls, t.schema, pairs)
         then [JoinedRow(MergedRow(ts, tup), t.records[r], t.schema, pairs)] else []
  {
    PrefixTuple(ts, t, tup, r);
    MergedStep(ts, t, tup, r);
    if Consistent(ts, tup) {
      PairsAgreeOnShared(MergedRow(ts, tup), t.records[r], MergedSchema(ts), t.schema);
      ConsistentStep(ts, t, tup, r);
    } else {
      InconsistentStays(ts, t, tup, r);
    }
  }

  ghost function PairOutput(l: Record, r: Record, ls: Schema, rs: Schema, pairs: JoinPairs): seq<Record> {
    if RowsAgree(l, r, ls, rs, pairs) then [JoinedRow(l, r, rs, pairs)] else []
  }

  /** The right loop concatenates what the single pairs give. */
  lemma {:induction false} MatchesAreFlatMap(g: Record -> seq<Record>, l: Record, rights: seq<Record>, ls: Schema,
        rs: Schema, pairs: JoinPairs)
    requires forall r :: g(r) == PairOutput(l, r, ls, rs, pairs)
    ensures MatchesOf(l, rights, ls, rs, pairs) == FlatMap(g, rights)
  {
    if rights != [] {
      MatchesAreFlatMap(g, l, rights[..|rights| - 1], ls, rs, pairs);
    }
  }

  lemma {:induction false} ExtensionsFlatMap(f: seq<nat> -> seq<Record>, g: Record -> seq<Record>, tup: seq<nat>,
        rights: seq<Record>, m: nat)
    requires m <= |rights| && forall r :: 0 <= r < |rights| ==> f(tup + [r]) == g(rights[r])
    ensures FlatMap(f, ExtendOne(tup, m)) == FlatMap(g, rights[..m])
  {
    if m > 0 {
      assert rights[..m] == rights[..m - 1] + [rights[m - 1]];
      ExtensionsFlatMap(f, g, tup, rights, m - 1);
      FlatMapSnoc<seq<nat>, Record>(f, ExtendOne(tup, m - 1), tup + [m - 1]);
      FlatMapSnoc(g, rights[..m - 1], rights[m - 1]);
    }
  }

  lemma {:induction false} FlatMapNothing(g: Record -> seq<Record>, rows: seq<Record>)
    requires forall r :: g(r) == []
    ensures FlatMap(g, rows) == []
  {
    if rows != [] {
      FlatMapNothing(g, rows[..|rows| - 1]);
    }
  }

  /** Joining one consistent tuple's row with the next table gives its consistent extensions. */
  lemma MatchesAreTuples(ts: Tables, t: Batch, tup: seq<nat>)
    requires AreTables(ts) && IsTable(t) && IsTuple(ts, tup)
    ensures RowsOfTuples(ts + [t], ExtendOne(tup, |t.records|))
         == if Consistent(ts, tup)
            then MatchesOf(MergedRow(ts, tup), t.records, MergedSchema(ts), t.schema,
                SharedPairs(MergedSchema(ts), t.schema))
            else []
  {
    var f := (tup: seq<nat>) => TupleRows(ts + [t], tup);
    var ls, l, live := MergedSchema(ts), MergedRow(ts, tup), Consistent(ts, tup);
    var pairs := SharedPairs(ls, t.schema);
    var g := (r: Record) => if live then PairOutput(l, r, ls, t.schema, pairs) else [];
    forall r | 0 <= r < |t.records|
      ensures f(tup + [r]) == g(t.records[r])
    {
      TupleRowsStep(ts, t, tup, r);
    }
    ExtensionsFlatMap(f, g, tup, t.records, |t.records|);
    assert t.records[..|t.records|] == t.records;
    if live {
      MatchesAreFlatMap(g, l, t.records, ls, t.schema, pairs);
    } else {
      FlatMapNothing(g, t.records);
    }
  }

  /** Joining the rows of any tuple list with the next table gives the rows of all its extensions. */
  lemma {:induction false} JoinExtendsTuples(ts: Tables, t: Batch, tups: seq<seq<nat>>)
    requires AreTables(ts) && IsTable(t) && AllTuplesOf(ts, tups)
    ensures JoinRows(RowsOfTuples(ts, tups), t.records, MergedSchema(ts), t.schema,
        SharedPairs(MergedSchema(ts), t.schema), Inner)
         == RowsOfTuples(ts + [t], ExtendAll(tups, |t.records|))
  {
    hide MergedRow, SharedPairs, MergedSchema, MatchesOf, IsTable, TupleRows, Consistent, IsTuple, AreTables, RowsFor,
        RowsOfTuples;
    if tups == [] {
      NoTuplesNoRows(ts);
      NoTuplesNoRows(ts + [t]);
    } else {
      var n, m := |tups| - 1, |t.records|;
      JoinExtendsTuples(ts, t, tups[..n]);
      RowsOfAppend(ts + [t], ExtendAll(tups[..n], m), ExtendOne(tups[n], m));
      MatchesAreTuples(ts, t, tups[n]);
      RowsOfSnoc(ts, tups[..n], tups[n]);
      assert tups[..n] + [tups[n]] == tups;
      TupleRowsAre(ts, tups[n]);
      JoinRowsSnoc(RowsOfTuples(ts, tups[..n]), TupleRows(ts, tups[n]), t.records, MergedSchema(ts), t.schema,
                   SharedPairs(MergedSchema(ts), t.schema));
    }
  }

  lemma NoTuplesNoRows(ts: Tables)
    ensures RowsOfTuples(ts, []) == []
  {
  }

  lemma TupleRowsAre(ts: Tables, tup: seq<nat>)
    requires AreTables(ts) && IsTuple(ts, tup)
    ensures TupleRows(ts, tup) == if Consistent(ts, tup) then [MergedRow(ts, tup)] else []
  {
  }

  lemma JoinRowsSnoc(before: seq<Record>, last: seq<Record>, rights: seq<Record>, ls: Schema, rs: Schema,
                     pairs: JoinPairs)
    requires |last| <= 1
    ensures JoinRows(before + last, rights, ls, rs, pairs, Inner)
         == JoinRows(before, rights, ls, rs, pairs, Inner)
            + (if last == [] then [] else MatchesOf(last[0], rights, ls, rs, pairs))
  {
    if last == [] {
      assert before + last == before;
    } else {
      assert (before + last)[..|before|] == before;
    }
  }

  lemma MergedSchemaStep(ts: Tables, t: Batch)
    requires AreTables(ts) && IsTable(t)
    ensures AreTables(ts + [t])
    ensures MergedSchema(ts + [t]) == JoinSchema(MergedSchema(ts), t.schema, SharedPairs(MergedSchema(ts), t.schema))
  {
    var ls, rs := MergedSchema(ts), t.schema;
    assert (ts + [t])[..|ts|] == ts;
    JoinColumnsAreShared(ls, rs);
    KeptFieldsAreNew(ls, rs, 0, SharedPairs(ls, rs));
    assert rs[0..] == rs;
  }

  lemma AllTuplesStep(ts: Tables, t: Batch)
    ensures AllTuples(ts + [t]) == ExtendAll(AllTuples(ts), |t.records|)
  {
    assert (ts + [t])[..|ts|] == ts;
  }

  /** Two batches joined on the columns they share. */
  ghost function NextJoin(lb: Batch, rb: Batch): Batch {
    var pairs := SharedPairs(lb.schema, rb.schema);
    Batch(JoinSchema(lb.schema, rb.schema, pairs), JoinRows(lb.records, rb.records, lb.schema, rb.schema, pairs, Inner))
  }

  /** Natural join with one more table is the executor's join on the shared columns. */
  lemma NaturalJoinStep(ts: Tables, t: Batch)
    requires AreTables(ts) && IsTable(t)
    ensures NextJoin(NaturalJoin(ts), t) == NaturalJoin(ts + [t])
  {
    MergedSchemaStep(ts, t);
    AllTuplesStep(ts, t);
    AllTuplesAreTuples(ts);
    JoinExtendsTuples(ts, t, AllTuples(ts));
  }

  // ----- a single table -----

  lemma {:induction false} NothingSeen(right: Schema, row: Record)
    requires |row| == |right|
    ensures NewFields([], right) == right && NewValues([], right, row) == row
  {
    if right != [] {
      NothingSeen(right[1..], row[1..]);
      assert [right[0]] + right[1..] == right && [row[0]] + row[1..] == row;
    }
  }

  lemma {:induction false} MatchesOfNothing(rights: seq<Record>, rs: Schema)
    requires DistinctNames(rs) && forall k :: 0 <= k < |rights| ==> |rights[k]| == |rs|
    ensures MatchesOf([], rights, [], rs, []) == rights
  {
    hide RowsAgree, JoinedRow, DistinctNames;
    if rights != [] {
      var n := |rights| - 1;
      MatchesOfNothing(rights[..n], rs);
      JoinedToNothing(rights[n], rs);
      assert rights == rights[..n] + [rights[n]];
    }
  }

  lemma JoinedToNothing(right: Record, rs: Schema)
    requires DistinctNames(rs) && |right| == |rs|
    ensures RowsAgree([], right, [], rs, []) && JoinedRow([], right, rs, []) == right
  {
    KeptValuesAreNew([], rs, right, 0, []);
    NothingSeen(rs, right);
    assert rs[0..] == rs && right[0..] == right;
  }

  lemma {:induction false} NoFieldsSeen(right: Schema)
    ensures NewFields([], right) == right
  {
    if right != [] {
      NoFieldsSeen(right[1..]);
      assert [right[0]] + right[1..] == right;
    }
  }

  lemma SingleTable(t: Batch)
    requires IsTable(t)
    ensures NaturalJoin([t]) == t
  {
    assert [] + [t] == [t];
    NaturalJoinStep([], t);
    EmptyJoin();
    assert SharedPairs([], t.schema) == [];
    NoFieldsKept(t.schema);
    JoinRowsSnoc([], [[]], t.records, [], t.schema, []);
    assert JoinRows([], t.records, [], t.schema, [], Inner) == [];
    MatchesOfNothing(t.records, t.schema);
  }

  lemma NoFieldsKept(right: Schema)
    ensures JoinSchema([], right, []) == right
  {
    KeptFieldsAreNew([], right, 0, []);
    NoFieldsSeen(right);
    assert right[0..] == right && [] + right == right;
  }

  /** The join of no tables has one row without columns. */
  lemma EmptyJoin()
    ensures NaturalJoin([]) == Batch([], [[]])
  {
    var none: Tables := [];
    assert AllTuples(none) == [[]];
    assert TupleRows(none, []) == [[]];
    var noTuples: seq<seq<nat>> := [];
    RowsOfSnoc(none, noTuples, []);
    assert noTuples + [[]] == [[]];
  }

  // ----- FROM lists -----

  /** The plan yields the batch `b`, under its stored schema. */
  ghost predicate Yields(p: Plan, env: Env, b: Batch) {
    Denote(p, env) == Ok(b) && OutputSchema(p) == b.schema
  }

  /** The catalog places the table, and the source found there returns the table's rows. */
  ghost predicate ScannedAs(table: string, catalog: Catalog, env: Env, t: Batch) {
    match catalog(table)
    case Err(_) => false
    case Ok(info) =>
      info.schema == t.schema
      && match env.scan(info.path, info.source, info.schema)
         case Err(_) => false
         case Ok(b) => b.records == t.records && (b.records != [] ==> b.schema == t.schema)
  }

  /** `ts` holds the listed tables, read from their sources. */
  ghost predicate Scanned(tables: seq<string>, catalog: Catalog, env: Env, ts: Tables) {
    && |ts| == |tables| && AreTables(ts)
    && forall i :: 0 <= i < |tables| ==> ScannedAs(tables[i], catalog, env, ts[i])
  }

  lemma ScanYields(table: string, catalog: Catalog, env: Env, t: Batch)
    requires ScannedAs(table, catalog, env, t)
    ensures TableScan(table, catalog).Ok? && Yields(TableScan(table, catalog).value, env, t)
  {
  }

  lemma NextJoinSucceeds(lb: Batch, rb: Batch)
    requires ValidBatch(lb) && IsTable(rb)
    ensures ValidBatch(NextJoin(lb, rb))
    ensures JoinMeaning(SharedPairs(lb.schema, rb.schema), Inner, NextJoin(lb, rb).schema, lb, rb)
        == Ok(NextJoin(lb, rb))
  {
    Shapes.JoinFits(lb.records, rb.records, lb.schema, rb.schema, SharedPairs(lb.schema, rb.schema));
  }

  lemma JoinDenotes(l: Plan, r: Plan, on: JoinPairs, schema: Schema, env: Env, lb: Batch, rb: Batch)
    requires Yields(l, env, lb) && Denote(r, env) == Ok(rb)
    ensures Denote(Join(l, r, on, Inner, schema), env) == JoinMeaning(on, Inner, schema, lb, rb)
  {
    hide JoinMeaning, ProjectMeaning, FilterMeaning, AggregateMeaning, SortMeaning, LimitMeaning, DistinctMeaning,
        ScanMeaning;
  }

  /** Joining `lb` with `rb` on their shared columns gives `nb`. */
  ghost predicate JoinsTo(lb: Batch, rb: Batch, nb: Batch) {
    && nb.schema == JoinSchema(lb.schema, rb.schema, SharedPairs(lb.schema, rb.schema))
    && JoinMeaning(SharedPairs(lb.schema, rb.schema), Inner, nb.schema, lb, rb) == Ok(nb)
  }

  lemma JoinNodeYields(l: Plan, r: Plan, env: Env, lb: Batch, rb: Batch, nb: Batch)
    requires Yields(l, env, lb) && Yields(r, env, rb) && JoinsTo(lb, rb, nb)
    ensures Yields(JoinNode(l, r), env, nb)
  {
    hide JoinMeaning, SharedPairs, JoinSchema, Denote;
    JoinDenotes(l, r, SharedPairs(lb.schema, rb.schema), nb.schema, env, lb, rb);
  }

  lemma FromNext(tables: seq<string>, n: nat, catalog: Catalog, env: Env, lb: Batch, rb: Batch, nb: Batch)
    requires 2 <= n <= |tables| && JoinsTo(lb, rb, nb)
    requires FromPlan(tables, n - 1, catalog).Ok? && Yields(FromPlan(tables, n - 1, catalog).value, env, lb)
    requires TableScan(tables[n - 1], catalog).Ok? && Yields(TableScan(tables[n - 1], catalog).value, env, rb)
    ensures FromPlan(tables, n, catalog).Ok? && Yields(FromPlan(tables, n, catalog).value, env, nb)
  {
    JoinNodeYields(FromPlan(tables, n - 1, catalog).value, TableScan(tables[n - 1], catalog).value, env, lb, rb, nb);
  }

  lemma NextJoinsTo(lb: Batch, rb: Batch, nb: Batch)
    requires ValidBatch(lb) && IsTable(rb) && nb == NextJoin(lb, rb)
    ensures JoinsTo(lb, rb, nb) && ValidBatch(nb)
  {
    NextJoinSucceeds(lb, rb);
  }

  /** Rows of a natural join fit the merged schema. */
  lemma {:induction false} NaturalJoinValid(ts: Tables)
    requires AreTables(ts) && ts != []
    ensures ValidBatch(NaturalJoin(ts))
  {
    var n := |ts| - 1;
    if n == 0 {
      assert ts == [ts[0]];
      SingleTable(ts[0]);
    } else {
      NaturalJoinValid(ts[..n]);
      assert ts[..n] + [ts[n]] == ts;
      NaturalJoinStep(ts[..n], ts[n]);
      NextJoinsTo(NaturalJoin(ts[..n]), ts[n], NaturalJoin(ts));
    }
  }

  lemma NaturalJoinsTo(ts: Tables, t: Batch)
    requires AreTables(ts) && ts != [] && IsTable(t)
    ensures JoinsTo(NaturalJoin(ts), t, NaturalJoin(ts + [t]))
  {
    NaturalJoinValid(ts);
    NaturalJoinStep(ts, t);
    NextJoinsTo(NaturalJoin(ts), t, NaturalJoin(ts + [t]));
  }

  /** The left-deep plan of a FROM list computes the natural join of its tables: exactly one row per
      consistent tuple of rows, in lexicographic order of row numbers. */
  lemma {:induction false} FromIsNaturalJoin(tables: seq<string>, n: nat, catalog: Catalog, env: Env, ts: Tables)
    requires 1 <= n <= |tables| && Scanned(tables, catalog, env, ts)
    ensures FromPlan(tables, n, catalog).Ok?
    ensures Yields(FromPlan(tables, n, catalog).value, env, NaturalJoin(ts[..n]))
  {
    hide NaturalJoin, JoinsTo, Yields, IsTable, TableScan, JoinNode, ScannedAs;
    ScanYields(tables[n - 1], catalog, env, ts[n - 1]);
    if n == 1 {
      SingleTable(ts[0]);
      assert ts[..1] == [ts[0]];
    } else {
      FromIsNaturalJoin(tables, n - 1, catalog, env, ts);
      assert ts[..n - 1] + [ts[n - 1]] == ts[..n];
      NaturalJoinsTo(ts[..n - 1], ts[n - 1]);
      FromNext(tables, n, catalog, env, NaturalJoin(ts[..n - 1]), ts[n - 1], NaturalJoin(ts[..n]));
    }
  }
}
