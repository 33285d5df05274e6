/** GROUP BY compares rendered values (crates/rspark-exec/src/operators.rs:304-363,
    crates/rspark-core/src/value.rs:35-45): when its groups are classes of equal values. */
module Groups {
  import opened Results
  import opened Values
  import opened Records
  import opened Orders
  import opened Subsequences
  import opened Sorting
  import opened Aggregating
  import Distincts

  /** The rows of a group have the same group values. */
  ghost predicate KeysSeparate(h: Host, ds: seq<Digest>) {
    forall i, j :: 0 <= i < |ds| && 0 <= j < |ds| && KeyOf(h, ds[i]) == KeyOf(h, ds[j]) ==> ds[i].values == ds[j].values
  }

  ghost function KeyFlags(h: Host, ds: seq<Digest>, key: Key): (flags: seq<bool>)
    ensures |flags| == |ds| && forall i :: 0 <= i < |ds| ==> flags[i] == (KeyOf(h, ds[i]) == key)
  {
    seq(|ds|, i requires 0 <= i < |ds| => KeyOf(h, ds[i]) == key)
  }

  ghost function ValueFlags(ds: seq<Digest>, values: seq<Value>): (flags: seq<bool>)
    ensures |flags| == |ds| && forall i :: 0 <= i < |ds| ==> flags[i] == (ds[i].values == values)
  {
    seq(|ds|, i requires 0 <= i < |ds| => ds[i].values == values)
  }

  /** The rows with exactly these group values, in input order. */
  ghost function MembersWith(ds: seq<Digest>, values: seq<Value>): seq<Digest> {
    Select(ds, ValueFlags(ds, values))
  }

  lemma {:induction false} MembersAreSelected(h: Host, ds: seq<Digest>, key: Key)
    ensures Members(h, ds, key) == Select(ds, KeyFlags(h, ds, key))
  {
    hide KeyOf;
    if ds != [] {
      var n := |ds| - 1;
      MembersAreSelected(h, ds[..n], key);
      assert KeyFlags(h, ds, key)[..n] == KeyFlags(h, ds[..n], key);
    }
  }

  lemma SameValuesSameKey(h: Host, a: Digest, b: Digest)
    requires a.values == b.values
    ensures KeyOf(h, a) == KeyOf(h, b)
  {
  }

  /** Rows with the same group values are in one group. */
  lemma GroupHasMembersWith(h: Host, ds: seq<Digest>, i: nat)
    requires i < |ds|
    ensures Members(h, ds, KeyOf(h, ds[i])) == MembersWith(ds, ds[i].values) <==>
            forall j :: 0 <= j < |ds| && KeyOf(h, ds[j]) == KeyOf(h, ds[i]) ==> ds[j].values == ds[i].values
  {
    hide Select, KeyOf;
    var grouped, equal := KeyFlags(h, ds, KeyOf(h, ds[i])), ValueFlags(ds, ds[i].values);
    MembersAreSelected(h, ds, KeyOf(h, ds[i]));
    forall j | 0 <= j < |ds| && equal[j]
      ensures grouped[j]
    {
      SameValuesSameKey(h, ds[j], ds[i]);
    }
    SelectFewer(ds, equal, grouped);
    assert equal == grouped <==> forall j :: 0 <= j < |ds| ==> equal[j] == grouped[j];
  }

  /** Every group is the class of rows with its group values exactly when rows with one key have one value. */
  lemma GroupsAreClassesExactly(h: Host, ds: seq<Digest>)
    ensures (forall i :: 0 <= i < |ds| ==> Members(h, ds, KeyOf(h, ds[i])) == MembersWith(ds, ds[i].values)) <==>
            KeysSeparate(h, ds)
  {
    hide Members, MembersWith, KeyOf;
    forall i | 0 <= i < |ds|
      ensures Members(h, ds, KeyOf(h, ds[i])) == MembersWith(ds, ds[i].values) <==>
              forall j :: 0 <= j < |ds| && KeyOf(h, ds[j]) == KeyOf(h, ds[i]) ==> ds[j].values == ds[i].values
    {
      GroupHasMembersWith(h, ds, i);
    }
  }

  /** On integer and boolean group columns with nulls they are. */
  lemma PlainGroupsAreClasses(h: Host, ds: seq<Digest>, kinds: seq<Kind>)
    requires forall c :: 0 <= c < |kinds| ==> Distincts.IsPlainKind(kinds[c])
    requires forall i :: 0 <= i < |ds| ==> Distincts.RowOfKinds(ds[i].values, kinds)
    ensures KeysSeparate(h, ds)
  {
    hide CastToString, OfKind;
    forall i, j | 0 <= i < |ds| && 0 <= j < |ds| && KeyOf(h, ds[i]) == KeyOf(h, ds[j])
      ensures ds[i].values == ds[j].values
    {
      forall c | 0 <= c < |kinds|
        ensures ds[i].values[c] == ds[j].values[c]
      {
        assert KeyOf(h, ds[i])[c] == KeyOf(h, ds[j])[c];
        Distincts.PlainRendering(h, kinds[c], ds[i].values[c], ds[j].values[c]);
      }
    }
  }

  /** A null and the string 'null' fall into one group. */
  lemma NullGroupsWithItsName(h: Host)
    ensures var ds := [Digest([Null], []), Digest([String("null")], [])];
            !KeysSeparate(h, ds) && Members(h, ds, KeyOf(h, ds[0])) == ds
  {
    var a, b := Digest([Null], []), Digest([String("null")], []);
    var ds := [a, b];
    assert KeyOf(h, a) == ["null"] == KeyOf(h, b);
    assert ds[..1] == [a] && [a][..0] == [];
    assert Members(h, [a], ["null"]) == [a];
    assert ds[0].values != ds[1].values;
  }
}
