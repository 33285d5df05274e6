/** DISTINCT (crates/rspark-exec/src/executor.rs:292-308): what deduplication by rendered key means. */
module Distincts {
  import opened Values
  import opened Records
  import opened Operators
  import opened Subsequences
  import opened Sorting

  /** Which rows have a key that occurs at no earlier position. */
  ghost function Firsts(h: Host, rows: seq<Record>): (flags: seq<bool>)
    ensures |flags| == |rows|
    ensures forall i :: 0 <= i < |rows| ==> flags[i] == !KeyOccurs(h, RowKey(h, rows[i]), rows, i)
  {
    seq(|rows|, i requires 0 <= i < |rows| => !KeyOccurs(h, RowKey(h, rows[i]), rows, i))
  }

  lemma {:induction false} FirstOccurrencesSelected(h: Host, rows: seq<Record>, n: nat)
    requires n <= |rows|
    ensures FirstOccurrences(h, rows, n) == Select(rows[..n], Firsts(h, rows)[..n])
  {
    if n > 0 {
      FirstOccurrencesSelected(h, rows, n - 1);
      assert rows[..n][..n - 1] == rows[..n - 1];
      assert Firsts(h, rows)[..n][..n - 1] == Firsts(h, rows)[..n - 1];
    }
  }

  /** The output is the subsequence of first occurrences by key. */
  lemma DistinctIsFirsts(h: Host, rows: seq<Record>)
    ensures DistinctRows(h, rows) == Select(rows, Firsts(h, rows))
  {
    FirstOccurrencesSelected(h, rows, |rows|);
    assert rows[..|rows|] == rows && Firsts(h, rows)[..|rows|] == Firsts(h, rows);
  }

  ghost predicate KeysDistinct(h: Host, rows: seq<Record>) {
    forall i, j :: 0 <= i < j < |rows| ==> RowKey(h, rows[i]) != RowKey(h, rows[j])
  }

  lemma DistinctKeys(h: Host, rows: seq<Record>)
    ensures KeysDistinct(h, DistinctRows(h, rows))
  {
    var flags := Firsts(h, rows);
    DistinctIsFirsts(h, rows);
    SelectIsPick(rows, flags);
    PositionsExact(flags);
    var at := Positions(flags);
    forall i, j | 0 <= i < j < |at|
      ensures RowKey(h, Pick(rows, at)[i]) != RowKey(h, Pick(rows, at)[j])
    {
      assert at[j] in at && at[i] < at[j];
      assert !KeyOccurs(h, RowKey(h, rows[at[j]]), rows, at[j]);
    }
  }

  lemma {:induction false} DistinctKeepsDistinct(h: Host, rows: seq<Record>, n: nat)
    requires KeysDistinct(h, rows) && n <= |rows|
    ensures FirstOccurrences(h, rows, n) == rows[..n]
  {
    if n > 0 {
      DistinctKeepsDistinct(h, rows, n - 1);
      assert rows[..n] == rows[..n - 1] + [rows[n - 1]];
    }
  }

  /** Running DISTINCT twice changes nothing. */
  lemma DistinctIdempotent(h: Host, rows: seq<Record>)
    ensures DistinctRows(h, DistinctRows(h, rows)) == DistinctRows(h, rows)
  {
    var once := DistinctRows(h, rows);
    DistinctKeys(h, rows);
    DistinctKeepsDistinct(h, once, |once|);
    assert once[..|once|] == once;
  }

  // ----- agreement with true row deduplication -----

  /** Reference meaning: drop the rows that equal an earlier row. */
  ghost function Deduplicated(rows: seq<Record>): seq<Record> {
    if rows == [] then []
    else
      var n := |rows| - 1;
      Deduplicated(rows[..n]) + (if rows[n] in rows[..n] then [] else [rows[n]])
  }

  ghost predicate SameWidth(rows: seq<Record>) {
    forall i, j :: 0 <= i < j < |rows| ==> |rows[i]| == |rows[j]|
  }

  /** No two different values of one column render alike, and no rendering contains the separator. */
  ghost predicate FaithfulRendering(h: Host, rows: seq<Record>) {
    && (forall i, j, c :: 0 <= i < |rows| && 0 <= j < |rows| && 0 <= c < |rows[i]| && 0 <= c < |rows[j]| ==>
          CastToString(h, rows[i][c]) == CastToString(h, rows[j][c]) ==> rows[i][c] == rows[j][c])
    && (forall i, c :: 0 <= i < |rows| && 0 <= c < |rows[i]| ==> '|' !in CastToString(h, rows[i][c]))
  }

  lemma SplitAtBar(a: string, x: string, b: string, y: string)
    requires '|' !in a && '|' !in b && a + "|" + x == b + "|" + y
    ensures a == b && x == y
  {
    var s, t := a + "|" + x, b + "|" + y;
    assert s[|a|] == '|' && t[|b|] == '|';
    assert !(|a| < |b|) && !(|b| < |a|);
    assert a == s[..|a|] && b == t[..|b|] && x == s[|a| + 1..] && y == t[|b| + 1..];
  }

  lemma {:induction false} JoinBarsInjective(p: seq<string>, q: seq<string>)
    requires |p| == |q| && JoinBars(p) == JoinBars(q)
    requires forall i :: 0 <= i < |p| ==> '|' !in p[i] && '|' !in q[i]
    ensures p == q
  {
    if |p| > 1 {
      SplitAtBar(p[0], JoinBars(p[1..]), q[0], JoinBars(q[1..]));
      JoinBarsInjective(p[1..], q[1..]);
      assert p == [p[0]] + p[1..] && q == [q[0]] + q[1..];
    }
  }

  lemma SameKeySameRow(h: Host, rows: seq<Record>, i: nat, j: nat)
    requires i < |rows| && j < |rows| && SameWidth(rows) && FaithfulRendering(h, rows)
    requires RowKey(h, rows[i]) == RowKey(h, rows[j])
    ensures rows[i] == rows[j]
  {
    assert |rows[i]| == |rows[j]|;
    var p, q := Renderings(h, rows[i]), Renderings(h, rows[j]);
    JoinBarsInjective(p, q);
    forall c | 0 <= c < |rows[i]|
      ensures rows[i][c] == rows[j][c]
    {
      assert p[c] == q[c];
    }
  }

  /** Rows with one key are one row. */
  ghost predicate KeysSeparate(h: Host, rows: seq<Record>) {
    forall i, j :: 0 <= i < j < |rows| && RowKey(h, rows[i]) == RowKey(h, rows[j]) ==> rows[i] == rows[j]
  }

  lemma {:induction false} DistinctPrefixIsDeduplicated(h: Host, rows: seq<Record>, n: nat)
    requires n <= |rows| && KeysSeparate(h, rows)
    ensures FirstOccurrences(h, rows, n) == Deduplicated(rows[..n])
  {
    if n > 0 {
      DistinctPrefixIsDeduplicated(h, rows, n - 1);
      var last := rows[n - 1];
      assert rows[..n][..n - 1] == rows[..n - 1];
      if KeyOccurs(h, RowKey(h, last), rows, n - 1) {
        var j :| 0 <= j < n - 1 && RowKey(h, rows[j]) == RowKey(h, last);
        assert rows[j] == last;
        assert rows[..n - 1][j] == last;
      }
    }
  }

  lemma {:induction false} DeduplicatedKeepsAll(rows: seq<Record>, i: nat)
    requires i < |rows|
    ensures rows[i] in Deduplicated(rows)
  {
    var n := |rows| - 1;
    if i < n {
      DeduplicatedKeepsAll(rows[..n], i);
    } else if rows[n] in rows[..n] {
      var j :| 0 <= j < n && rows[..n][j] == rows[n];
      DeduplicatedKeepsAll(rows[..n], j);
    }
  }

  /** DISTINCT is true row deduplication exactly when no two different rows have the same key. */
  lemma DistinctExactly(h: Host, rows: seq<Record>)
    ensures DistinctRows(h, rows) == Deduplicated(rows) <==> KeysSeparate(h, rows)
  {
    assert rows[..|rows|] == rows;
    if KeysSeparate(h, rows) {
      DistinctPrefixIsDeduplicated(h, rows, |rows|);
    }
    if DistinctRows(h, rows) == Deduplicated(rows) {
      DistinctKeys(h, rows);
      var out := DistinctRows(h, rows);
      forall i, j | 0 <= i < j < |rows| && RowKey(h, rows[i]) == RowKey(h, rows[j])
        ensures rows[i] == rows[j]
      {
        DeduplicatedKeepsAll(rows, i);
        DeduplicatedKeepsAll(rows, j);
        var a :| 0 <= a < |out| && out[a] == rows[i];
        var b :| 0 <= b < |out| && out[b] == rows[j];
        assert a == b;
      }
    }
  }

  /** With faithful rendering, DISTINCT is true row deduplication. */
  lemma DistinctIsDeduplication(h: Host, rows: seq<Record>)
    requires SameWidth(rows) && FaithfulRendering(h, rows)
    ensures DistinctRows(h, rows) == Deduplicated(rows)
  {
    forall i, j | 0 <= i < j < |rows| && RowKey(h, rows[i]) == RowKey(h, rows[j])
      ensures rows[i] == rows[j]
    {
      SameKeySameRow(h, rows, i, j);
    }
    DistinctExactly(h, rows);
  }

  // ----- integer and boolean columns -----

  predicate IsPlainKind(k: Kind) {
    k.BooleanKind? || k.Int32Kind? || k.Int64Kind?
  }

  predicate RowOfKinds(keys: seq<Value>, kinds: seq<Kind>) {
    |keys| == |kinds| && forall i :: 0 <= i < |keys| ==> OfKind(keys[i], kinds[i])
  }

  /** Every column holds nulls and values of one integer type, or nulls and booleans. */
  ghost predicate PlainColumns(rows: seq<Record>, kinds: seq<Kind>) {
    && (forall c :: 0 <= c < |kinds| ==> IsPlainKind(kinds[c]))
    && forall i :: 0 <= i < |rows| ==> RowOfKinds(rows[i], kinds)
  }

  lemma IntToStringChars(n: int)
    ensures IntToString(n) != [] && IntToString(n)[0] != 'n' && '|' !in IntToString(n)
  {
    NatToStringNonEmpty(if n < 0 then -n else n);
    var digits := NatToString(if n < 0 then -n else n);
    assert digits[0] in digits;
    if n < 0 {
      assert forall c :: c in IntToString(n) ==> c == '-' || c in digits;
    }
  }

  lemma PlainRendering(h: Host, k: Kind, a: Value, b: Value)
    requires IsPlainKind(k) && OfKind(a, k) && OfKind(b, k)
    ensures '|' !in CastToString(h, a)
    ensures CastToString(h, a) == CastToString(h, b) ==> a == b
  {
    var s, t := CastToString(h, a), CastToString(h, b);
    assert "null"[0] == 'n' && "true"[0] == 't' && "false"[0] == 'f';
    if a.Int32? || a.Int64? {
      IntToStringChars(if a.Int32? then a.i else a.l);
    }
    if b.Int32? || b.Int64? {
      IntToStringChars(if b.Int32? then b.i else b.l);
    }
    if s == t && a.Int32? && b.Int32? {
      IntToStringInjective(a.i, b.i);
    } else if s == t && a.Int64? && b.Int64? {
      IntToStringInjective(a.l, b.l);
    }
  }

  /** There rendering is faithful, so DISTINCT is row deduplication outright. */
  lemma DistinctOnPlainColumns(h: Host, rows: seq<Record>, kinds: seq<Kind>)
    requires PlainColumns(rows, kinds)
    ensures DistinctRows(h, rows) == Deduplicated(rows)
  {
    hide CastToString, OfKind, DistinctRows, Deduplicated;
    forall i, j, c | 0 <= i < |rows| && 0 <= j < |rows| && 0 <= c < |rows[i]| && 0 <= c < |rows[j]|
      ensures CastToString(h, rows[i][c]) == CastToString(h, rows[j][c]) ==> rows[i][c] == rows[j][c]
      ensures '|' !in CastToString(h, rows[i][c])
    {
      PlainRendering(h, kinds[c], rows[i][c], rows[j][c]);
    }
    assert FaithfulRendering(h, rows);
    DistinctIsDeduplication(h, rows);
  }

  /** The separator condition is needed: two different rows collapse into one. */
  lemma SeparatorCollision(h: Host)
    ensures var rows := [[String("a|b"), String("c")], [String("a"), String("b|c")]];
      DistinctRows(h, rows) == [rows[0]] && Deduplicated(rows) == rows
  {
    var r0, r1 := [String("a|b"), String("c")], [String("a"), String("b|c")];
    var rows := [r0, r1];
    assert Renderings(h, r0) == ["a|b", "c"] && Renderings(h, r1) == ["a", "b|c"];
    assert ["a|b", "c"][1..] == ["c"] && ["a", "b|c"][1..] == ["b|c"];
    assert RowKey(h, r0) == "a|b|c" == RowKey(h, r1);
    assert KeyOccurs(h, RowKey(h, rows[1]), rows, 1) by { assert RowKey(h, rows[0]) == RowKey(h, rows[1]); }
    assert !KeyOccurs(h, RowKey(h, rows[0]), rows, 0);
    assert FirstOccurrences(h, rows, 1) == [r0];
    assert FirstOccurrences(h, rows, 2) == [r0];
    assert r0 != r1 by { assert r0[0] != r1[0] by { assert |"a|b"| != |"a"|; } }
    assert rows[..1] == [r0] && r1 !in [r0];
    assert Deduplicated([r0]) == [r0];
  }
}
