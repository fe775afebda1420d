/** Column lists, placeholder numbers and values that are grown together. */
module Alignment {

  /** One column, one placeholder and one value for each entry of the body, in whatever order the map yields them. */
  ghost predicate Aligned<V>(body: map<string, V>, columns: seq<string>, holders: seq<nat>, vals: seq<V>) {
    && |columns| == |holders| == |vals|
    && (forall i :: 0 <= i < |columns| ==> columns[i] in body && vals[i] == body[columns[i]] && holders[i] == i + 1)
    && (forall i, j :: 0 <= i < j < |columns| ==> columns[i] != columns[j])
    && (forall c :: c in body ==> c in columns)
  }

  lemma AlignedGrows<V>(body: map<string, V>, columns: seq<string>, holders: seq<nat>, vals: seq<V>, c: string, v: V)
    requires Aligned(body, columns, holders, vals) && c !in body
    ensures Aligned(body[c := v], columns + [c], holders + [|columns| + 1], vals + [v])
  {
  }

  /** An aligned list has one column for each entry. */
  lemma {:induction false} AlignedCounts<V>(body: map<string, V>, columns: seq<string>, holders: seq<nat>, vals: seq<V>)
    requires Aligned(body, columns, holders, vals)
    ensures |columns| == |body|
  {
    if columns == [] {
      assert body.Keys == {};
    } else {
      var n := |columns| - 1;
      var rest := body - {columns[n]};
      assert columns == columns[..n] + [columns[n]];
      assert Aligned(rest, columns[..n], holders[..n], vals[..n]);
      AlignedCounts(rest, columns[..n], holders[..n], vals[..n]);
      assert body.Keys == rest.Keys + {columns[n]};
    }
  }
}
