/** How a request inside a transaction becomes a staged statement with its snapshot. */
module Middleware {
  import opened Wrappers
  import opened Rows
  import opened Saga
  import opened Store
  import opened Undo
  import opened Text
  import opened Alignment
  import M = Manager

  /** The parsed query string: every key with its values in order. */
  type Query = map<string, seq<string>>

  /** How the database reads a text parameter as a value of a column. */
  type Cast = (string, string) -> Value

  // ----- extracting

  /** url.Values.Get and the part after the operator; the empty text when the request names no id. */
  function IdParam(q: Query): string {
    if ID !in q || q[ID] == [] || q[ID][0] == "" then ""
    else if '.' in q[ID][0] then AfterDot(q[ID][0])
    else q[ID][0]
  }

  /** The values of `id` without its operator; only the first one counts. */
  method ExtractIdParam(q: Query) returns (id: string)
    ensures id == IdParam(q)
    ensures ID !in q || q[ID] == [] ==> id == ""
    ensures ID in q && q[ID] != [] ==>
              if '.' in q[ID][0] then Carries(q[ID][0], id) else id == q[ID][0]
  {
    var value := if ID in q && q[ID] != [] then q[ID][0] else "";
    if value == "" {
      return "";
    }
    if '.' in value {
      CarriesIff(value, AfterDot(value));
      return AfterDot(value);
    }
    return value;
  }

  method ExtractParts(item: Row) returns (columns: seq<string>, holders: seq<nat>, vals: seq<Value>)
    ensures Aligned(item, columns, holders, vals)
  {
    columns, holders, vals := [], [], [];
    var i := 1;
    var left := item.Keys;
    ghost var done: Row := map[];
    while left != {}
      invariant left <= item.Keys && done.Keys == item.Keys - left && i == |columns| + 1
      invariant forall c :: c in done ==> done[c] == item[c]
      invariant Aligned(done, columns, holders, vals)
      decreases left
    {
      var c :| c in left;
      AlignedGrows(done, columns, holders, vals, c, item[c]);
      done := done[c := item[c]];
      columns, holders, vals := columns + [c], holders + [i], vals + [item[c]];
      left := left - {c};
      i := i + 1;
    }
    assert done == item;
  }

  // ----- the statements as the database binds them

  /** Statement text, placeholders kept as numbers. */
  datatype Sql =
    | InsertSql(table: string, columns: seq<string>, holders: seq<nat>)
    | UpdateSql(table: string, columns: seq<string>, holders: seq<nat>, whereHolder: nat)
    | DeleteSql(table: string)

  function Bound(columns: seq<string>, holders: seq<nat>, params: seq<Value>): Row
    requires |columns| == |holders|
    requires forall i :: 0 <= i < |holders| ==> 1 <= holders[i] <= |params|
  {
    if columns == [] then map[]
    else
      var n := |columns| - 1;
      Bound(columns[..n], holders[..n], params)[columns[n] := params[holders[n] - 1]]
  }

  /** The parameters of a statement are exactly $1 to the highest placeholder. */
  predicate WellBound(sql: Sql, params: seq<Value>) {
    match sql
    case InsertSql(_, columns, holders) =>
      |columns| == |holders| == |params| && forall i :: 0 <= i < |holders| ==> 1 <= holders[i] <= |params|
    case UpdateSql(_, columns, holders, whereHolder) =>
      && |columns| == |holders| && whereHolder == |params| && |params| == |columns| + 1
      && forall i :: 0 <= i < |holders| ==> 1 <= holders[i] <= |params|
    case DeleteSql(_) => |params| == 1
  }

  /** The statement the database executes. */
  function Denotes(sql: Sql, params: seq<Value>): Stmt
    requires WellBound(sql, params)
  {
    match sql
    case InsertSql(t, columns, holders) => Insert(t, Bound(columns, holders, params))
    case UpdateSql(t, columns, holders, whereHolder) =>
      Update(t, Bound(columns, holders, params), Some(params[whereHolder - 1]))
    case DeleteSql(t) => Delete(t, Some(params[0]))
  }

  lemma {:induction false} BoundLooksUp(columns: seq<string>, holders: seq<nat>, params: seq<Value>)
    requires |columns| == |holders|
    requires forall i :: 0 <= i < |holders| ==> 1 <= holders[i] <= |params|
    requires forall i, j :: 0 <= i < j < |columns| ==> columns[i] != columns[j]
    ensures forall c :: c in Bound(columns, holders, params) <==> c in columns
    ensures forall i :: 0 <= i < |columns| ==> columns[i] in Bound(columns, holders, params)
    ensures forall i :: 0 <= i < |columns| ==> Bound(columns, holders, params)[columns[i]] == params[holders[i] - 1]
  {
    if columns != [] {
      var n := |columns| - 1;
      var front, rest := columns[..n], Bound(columns[..n], holders[..n], params);
      BoundLooksUp(front, holders[..n], params);
      var all := rest[columns[n] := params[holders[n] - 1]];
      assert Bound(columns, holders, params) == all;
      hide Bound;
      assert columns == front + [columns[n]];
      forall i | 0 <= i < |columns| ensures columns[i] in all && all[columns[i]] == params[holders[i] - 1] {
        if i < n {
          assert front[i] == columns[i] && holders[..n][i] == holders[i];
        }
      }
    }
  }

  /** Aligned parts bind back to the body they came from, with or without a parameter for the id. */
  lemma PartsBind(item: Row, columns: seq<string>, holders: seq<nat>, vals: seq<Value>, more: seq<Value>)
    requires Aligned(item, columns, holders, vals)
    ensures Bound(columns, holders, vals + more) == item
  {
    BoundLooksUp(columns, holders, vals + more);
  }

  /** The insert statement built for an item inserts that item. */
  method BuildInsert(table: string, item: Row) returns (sql: Sql, params: seq<Value>)
    ensures WellBound(sql, params) && Denotes(sql, params) == Insert(table, item)
  {
    var columns, holders, vals := ExtractParts(item);
    PartsBind(item, columns, holders, vals, []);
    assert vals + [] == vals;
    return InsertSql(table, columns, holders), vals;
  }

  /** The update statement has as many parameters as placeholders exactly when the request names an id. */
  method BuildUpdate(table: string, item: Row, q: Query, cast: Cast) returns (sql: Sql, params: seq<Value>)
    ensures WellBound(sql, params) <==> IdParam(q) != ""
    ensures WellBound(sql, params) ==> Denotes(sql, params) == Update(table, item, Some(cast(ID, IdParam(q))))
  {
    var columns, holders, vals := ExtractParts(item);
    var id := ExtractIdParam(q);
    params := vals;
    if id != "" {
      params := params + [cast(ID, id)];
    }
    PartsBind(item, columns, holders, vals, [cast(ID, id)]);
    return UpdateSql(table, columns, holders, |columns| + 1), params;
  }

  /** A staged statement whose placeholders are not all bound fails when the commit runs it. */
  function StagedUpdate(table: string, item: Row, q: Query, cast: Cast): Stmt {
    Update(table, item, if IdParam(q) == "" then None else Some(cast(ID, IdParam(q))))
  }

  function StagedDelete(table: string, q: Query, cast: Cast): Stmt {
    Delete(table, if IdParam(q) == "" then None else Some(cast(ID, IdParam(q))))
  }

  // ----- the snapshot

  datatype Condition = Condition(column: string, text: string)

  /** The WHERE conditions of one key: one for each of its values that has an operator. */
  function ConditionsOf(key: string, values: seq<string>): seq<Condition> {
    if values == [] || HasPrefix(key, "_") then []
    else (if '.' in values[0] then [Condition(key, AfterDot(values[0]))] else []) + ConditionsOf(key, values[1..])
  }

  /** The value has an operator, and this text behind it. */
  ghost predicate Carries(value: string, text: string) {
    exists op: string :: '.' !in op && value == op + "." + text
  }

  /** The conditions of a query: one for each value with an operator, under each key without an underscore in front. */
  ghost predicate IsCondition(q: Query, c: Condition) {
    c.column in q && !HasPrefix(c.column, "_") && exists j :: 0 <= j < |q[c.column]| && Carries(q[c.column][j], c.text)
  }

  lemma CarriesIff(value: string, text: string)
    ensures Carries(value, text) <==> '.' in value && AfterDot(value) == text
  {
    if '.' in value && AfterDot(value) == text {
      assert value == BeforeDot(value) + "." + text;
    }
    forall op: string | '.' !in op && value == op + "." + text ensures '.' in value && AfterDot(value) == text {
      assert value[|op|] == '.' && value[..|op|] == op;
      IndexIs(value, '.', |op|);
      assert value[|op| + 1..] == text;
    }
  }

  /** A condition on a column that has one value in the query. */
  lemma OneValueCondition(q: Query, c: Condition)
    requires c.column in q && |q[c.column]| == 1 && !HasPrefix(c.column, "_")
    ensures IsCondition(q, c) <==> '.' in q[c.column][0] && AfterDot(q[c.column][0]) == c.text
  {
    CarriesIff(q[c.column][0], c.text);
    hide Carries;
  }

  lemma {:induction false} ConditionsOfIff(key: string, values: seq<string>, c: Condition)
    ensures c in ConditionsOf(key, values) <==>
            c.column == key && !HasPrefix(key, "_") && exists j :: 0 <= j < |values| && Carries(values[j], c.text)
  {
    if values != [] {
      ConditionsOfIff(key, values[1..], c);
      CarriesIff(values[0], c.text);
      hide Carries;
      hide AfterDot;
      assert forall j :: 0 < j < |values| ==> values[j] == values[1..][j - 1];
      assert forall j :: 0 <= j < |values[1..]| ==> values[1..][j] == values[j + 1];
    }
  }

  method ExtractWhere(q: Query) returns (conditions: seq<Condition>)
    ensures forall c :: c in conditions <==> IsCondition(q, c)
  {
    conditions := [];
    var left := q.Keys;
    while left != {}
      invariant left <= q.Keys
      invariant forall c :: c in conditions <==> IsCondition(q, c) && c.column !in left
      decreases left
    {
      var key :| key in left;
      var mine := ConditionsForKey(key, q[key]);
      forall c: Condition
        ensures c in mine <==> c.column == key && IsCondition(q, c) {
        ConditionsOfIff(key, q[key], c);
      }
      conditions := conditions + mine;
      left := left - {key};
    }
  }

  method ConditionsForKey(key: string, values: seq<string>) returns (conditions: seq<Condition>)
    ensures conditions == ConditionsOf(key, values)
  {
    conditions := [];
    if HasPrefix(key, "_") {
      return;
    }
    var i := 0;
    while i < |values|
      invariant 0 <= i <= |values|
      invariant conditions + ConditionsOf(key, values[i..]) == ConditionsOf(key, values)
    {
      assert values[i..][1..] == values[i + 1..];
      if '.' in values[i] {
        conditions := conditions + [Condition(key, AfterDot(values[i]))];
      }
      i := i + 1;
    }
  }

  /** SQL equality: never true of NULL. */
  ghost predicate Satisfies(row: Row, c: Condition, cast: Cast) {
    c.column in row && row[c.column] == cast(c.column, c.text) && !row[c.column].Null?
  }

  ghost predicate Selected(d: Data, table: string, conditions: seq<Condition>, cast: Cast, k: Key) {
    k in d && k.table == table && forall c :: c in conditions ==> Satisfies(d[k], c, cast)
  }

  /** The rows a snapshot lists: each selected row once, in the order the database returns them. */
  ghost predicate Snapshot(d: Data, table: string, conditions: seq<Condition>, cast: Cast, before: Option<seq<Row>>) {
    exists keys: seq<Key> ::
      && (forall k :: k in keys <==> Selected(d, table, conditions, cast, k))
      && (forall i, j :: 0 <= i < j < |keys| ==> keys[i] != keys[j])
      && before == if keys == [] then None else Some(seq(|keys|, i requires 0 <= i < |keys| => RowAt(d, keys[i])))
  }

  function RowAt(d: Data, k: Key): Row {
    if k in d then d[k] else map[]
  }

  method Satisfied(row: Row, conditions: seq<Condition>, cast: Cast) returns (ok: bool)
    ensures ok <==> forall c :: c in conditions ==> Satisfies(row, c, cast)
  {
    var i := 0;
    while i < |conditions|
      invariant 0 <= i <= |conditions|
      invariant forall c :: c in conditions[..i] ==> Satisfies(row, c, cast)
    {
      var c := conditions[i];
      if c.column !in row || row[c.column] != cast(c.column, c.text) || row[c.column].Null? {
        assert c in conditions && !Satisfies(row, c, cast);
        return false;
      }
      i := i + 1;
    }
    assert conditions[..i] == conditions;
    return true;
  }

  /** The query names only columns of the table; otherwise the database refuses it. */
  predicate KnownColumns(schema: Schema, table: string, conditions: seq<Condition>) {
    table in schema && forall c | c in conditions :: c.column in schema[table]
  }

  datatype Captured = Captured(before: Option<seq<Row>>, rowIds: Option<seq<Value>>)

  /** The ids of the rows that have one. */
  function IdsOf(rows: seq<Row>): seq<Value> {
    if rows == [] then []
    else
      var last := rows[|rows| - 1];
      IdsOf(rows[..|rows| - 1]) + if ID in last && !last[ID].Null? then [last[ID]] else []
  }

  predicate Lists(row: Row, id: Value) {
    ID in row && row[ID] == id && !id.Null?
  }

  /** No NULL is listed, and no other id is left out. */
  lemma {:induction false} IdsOfMembers(rows: seq<Row>, id: Value)
    ensures id in IdsOf(rows) <==> exists row :: row in rows && Lists(row, id)
  {
    if rows != [] {
      var n := |rows| - 1;
      IdsOfMembers(rows[..n], id);
      var last := rows[n];
      assert IdsOf(rows) == IdsOf(rows[..n]) + if ID in last && !last[ID].Null? then [last[ID]] else [];
      hide IdsOf;
      assert id in IdsOf(rows) <==> id in IdsOf(rows[..n]) || Lists(last, id);
      hide Lists;
      assert rows == rows[..n] + [last];
      assert forall row :: row in rows <==> row in rows[..n] || row == last;
    }
  }

  /** Rows of a table have ids, so each row of a snapshot is listed with its own. */
  lemma {:induction false} EachRowHasItsId(rows: seq<Row>)
    requires forall i :: 0 <= i < |rows| ==> ID in rows[i] && !rows[i][ID].Null?
    ensures |IdsOf(rows)| == |rows| && forall i :: 0 <= i < |rows| ==> IdsOf(rows)[i] == rows[i][ID]
  {
    if rows != [] {
      EachRowHasItsId(rows[..|rows| - 1]);
    }
  }

  method CaptureSnapshot(schema: Schema, d: Data, table: string, conditions: seq<Condition>, cast: Cast)
    returns (r: Result<Captured, Fault>)
    ensures r.Err? <==> !KnownColumns(schema, table, conditions)
    ensures r.Ok? ==> Snapshot(d, table, conditions, cast, r.value.before)
    ensures r.Ok? ==> r.value.rowIds == if r.value.before.Some? then Some(IdsOf(r.value.before.value)) else None
  {
    if !KnownColumns(schema, table, conditions) {
      return Err(BadStatement);
    }
    var keys: seq<Key>, rows: seq<Row>, ids: seq<Value> := [], [], [];
    var left := d.Keys;
    while left != {}
      invariant left <= d.Keys && |rows| == |keys| && ids == IdsOf(rows)
      invariant forall i :: 0 <= i < |keys| ==> rows[i] == RowAt(d, keys[i])
      invariant forall k :: k in keys <==> k !in left && Selected(d, table, conditions, cast, k)
      invariant forall i, j :: 0 <= i < j < |keys| ==> keys[i] != keys[j]
      decreases left
    {
      var k :| k in left;
      left := left - {k};
      var ok := Satisfied(d[k], conditions, cast);
      if k.table == table && ok {
        assert (rows + [d[k]])[..|rows|] == rows;
        keys, rows := keys + [k], rows + [d[k]];
        if ID in d[k] && !d[k][ID].Null? {
          ids := ids + [d[k][ID]];
        }
      }
    }
    if keys == [] {
      return Ok(Captured(None, None));
    }
    assert rows == seq(|keys|, i requires 0 <= i < |keys| => RowAt(d, keys[i]));
    return Ok(Captured(Some(rows), Some(ids)));
  }

  // ----- staging

  /** The operations that a POST of these items stages. */
  function StagedInserts(first: nat, tx: string, table: string, items: seq<Row>): seq<Op> {
    seq(|items|, i requires 0 <= i < |items| => Op(first + i, tx, Insert(table, items[i]), None, None, None))
  }

  /** A request inside a transaction, as far as it stages one operation. */
  datatype Request = Post(item: Row) | Patch(item: Row, q: Query) | Remove(q: Query)

  /** The statement, the snapshot and the ids a request stages over `d`. */
  ghost predicate Stages(d: Data, table: string, req: Request, cast: Cast, stmt: Stmt, before: Option<seq<Row>>,
                         rowIds: Option<seq<Value>>) {
    && rowIds == (if before.Some? then Some(IdsOf(before.value)) else None)
    && match req
    case Post(item) => stmt == Insert(table, item) && before.None?
    case Patch(item, q) => stmt == StagedUpdate(table, item, q, cast) && PatchSnapshot(d, table, q, cast, before)
    case Remove(q) =>
      && stmt == StagedDelete(table, q, cast)
      && if IdParam(q) == "" then before.None? else Snapshot(d, table, [Condition(ID, IdParam(q))], cast, before)
  }

  /** One item after the other is staged, until the database refuses one (`failing`). */
  method StagePost(m: M.Manager, tx: string, table: string, items: seq<Row>, failing: Option<nat>) returns (code: int)
    modifies m
    ensures m.data == old(m.data) && m.txs == old(m.txs)
    ensures if !Has(old(m.View()), tx, Pending) then code == 409 && m.ops == old(m.ops)
            else if failing.Some? && failing.value < |items| then
              code == 500 && m.ops == old(m.ops) + StagedInserts(old(m.nextId), tx, table, items[..failing.value])
            else code == 202 && m.ops == old(m.ops) + StagedInserts(old(m.nextId), tx, table, items)
  {
    if tx !in m.txs || m.txs[tx].status != Pending {
      return 409;
    }
    var i := 0;
    while i < |items|
      invariant 0 <= i <= |items| && m.data == old(m.data) && m.txs == old(m.txs)
      invariant m.nextId == old(m.nextId) + i
      invariant m.ops == old(m.ops) + StagedInserts(old(m.nextId), tx, table, items[..i])
      invariant failing.Some? ==> i <= failing.value
    {
      var sql, params := BuildInsert(table, items[i]);
      if failing == Some(i) {
        return 500;
      }
      var fault := m.Stage(tx, Denotes(sql, params), None, None);
      assert items[..i + 1] == items[..i] + [items[i]];
      i := i + 1;
    }
    assert items[..i] == items;
    return 202;
  }

  /** A PATCH or PUT stages its first item only, and nothing for an empty body. */
  method StagePatch(m: M.Manager, tx: string, table: string, items: seq<Row>, q: Query, cast: Cast)
    returns (code: int)
    modifies m
    ensures m.data == old(m.data) && m.txs == old(m.txs)
    ensures code == 409 <==> !Has(old(m.View()), tx, Pending)
    ensures code == 202 && items != [] ==>
              && |m.ops| == |old(m.ops)| + 1 && m.ops[..|old(m.ops)|] == old(m.ops)
              && var op := m.ops[|old(m.ops)|];
                 && op.tx == tx && op.committed.None?
                 && Stages(m.data, table, Patch(items[0], q), cast, op.stmt, op.before, op.rowIds)
    ensures code != 202 || items == [] ==> m.ops == old(m.ops)
  {
    if tx !in m.txs || m.txs[tx].status != Pending {
      return 409;
    }
    if items == [] {
      return 202;
    }
    var sql, params := BuildUpdate(table, items[0], q, cast);
    var stmt := if WellBound(sql, params) then Denotes(sql, params) else Update(table, items[0], None);
    var conditions := ExtractWhere(q);
    var captured := Captured(None, None);
    if conditions != [] {
      var r := CaptureSnapshot(m.schema, m.data, table, conditions, cast);
      if r.Err? {
        return 500;
      }
      captured := r.value;
      assert conditions[0] in conditions;
      assert PatchSnapshot(m.data, table, q, cast, captured.before);
    } else {
      assert NoConditions(q) by {
        forall c ensures !IsCondition(q, c) { assert c !in conditions; }
      }
    }
    var fault := m.Stage(tx, stmt, captured.before, captured.rowIds);
    return 202;
  }

  ghost predicate NoConditions(q: Query) {
    forall c :: !IsCondition(q, c)
  }

  /** The snapshot of a PATCH: none without conditions, else of the rows that satisfy all of them. */
  ghost predicate PatchSnapshot(d: Data, table: string, q: Query, cast: Cast, before: Option<seq<Row>>) {
    if NoConditions(q) then before.None?
    else exists conditions ::
      (forall c :: c in conditions <==> IsCondition(q, c)) && Snapshot(d, table, conditions, cast, before)
  }

  /** A DELETE filters on the id it deletes; without one it stages a statement that cannot be bound. */
  method StageDelete(m: M.Manager, tx: string, table: string, q: Query, cast: Cast) returns (code: int)
    modifies m
    ensures m.data == old(m.data) && m.txs == old(m.txs)
    ensures code == 409 <==> !Has(old(m.View()), tx, Pending)
    ensures code == 202 ==>
              && |m.ops| == |old(m.ops)| + 1 && m.ops[..|old(m.ops)|] == old(m.ops)
              && var op := m.ops[|old(m.ops)|];
                 && op.tx == tx && op.committed.None?
                 && Stages(m.data, table, Remove(q), cast, op.stmt, op.before, op.rowIds)
    ensures code != 202 ==> m.ops == old(m.ops)
  {
    if tx !in m.txs || m.txs[tx].status != Pending {
      return 409;
    }
    var id := ExtractIdParam(q);
    var params: seq<Value> := [];
    var captured := Captured(None, None);
    if id != "" {
      params := [cast(ID, id)];
      var r := CaptureSnapshot(m.schema, m.data, table, [Condition(ID, id)], cast);
      if r.Err? {
        return 500;
      }
      captured := r.value;
    }
    var sql := DeleteSql(table);
    var stmt := if WellBound(sql, params) then Denotes(sql, params) else Delete(table, None);
    var fault := m.Stage(tx, stmt, captured.before, captured.rowIds);
    return 202;
  }

  // ----- what the snapshots cover

  lemma OnlyOne(keys: seq<Key>, k: Key)
    requires forall i :: 0 <= i < |keys| ==> keys[i] == k
    requires forall i, j :: 0 <= i < j < |keys| ==> keys[i] != keys[j]
    ensures |keys| <= 1
  {
    if keys != [] {
      var first, last := keys[0], keys[|keys| - 1];
      assert first == last;
    }
  }

  /** A snapshot over conditions that pin the id lists the row of that id, if it satisfies the others. */
  lemma PinnedSnapshot(schema: Schema, d: Data, table: string, conditions: seq<Condition>, id: string, cast: Cast,
                       before: Option<seq<Row>>)
    requires ValidData(schema, d) && !cast(ID, id).Null?
    requires Condition(ID, id) in conditions && Snapshot(d, table, conditions, cast, before)
    ensures var k := Key(table, cast(ID, id));
            before == if Selected(d, table, conditions, cast, k) then Some([d[k]]) else None
  {
    var k := Key(table, cast(ID, id));
    var keys: seq<Key> :|
      && (forall k :: k in keys <==> Selected(d, table, conditions, cast, k))
      && (forall i, j :: 0 <= i < j < |keys| ==> keys[i] != keys[j])
      && before == if keys == [] then None else Some(seq(|keys|, i requires 0 <= i < |keys| => RowAt(d, keys[i])));
    forall other | other in keys ensures other == k {
      assert Selected(d, table, conditions, cast, other);
      assert Satisfies(d[other], Condition(ID, id), cast);
    }
    forall i | 0 <= i < |keys| ensures keys[i] == k {
      assert keys[i] in keys;
    }
    OnlyOne(keys, k);
    assert k in keys <==> Selected(d, table, conditions, cast, k);
    if keys != [] {
      assert keys[0] in keys && |keys| == 1;
      assert seq(1, i requires 0 <= i < 1 => RowAt(d, keys[i])) == [d[k]];
    }
  }

  /** A staged DELETE is always covered by its snapshot. */
  lemma DeleteIsCovered(schema: Schema, d: Data, table: string, q: Query, cast: Cast, op: Op)
    requires ValidData(schema, d) && IdParam(q) != "" && !cast(ID, IdParam(q)).Null?
    requires op.stmt == StagedDelete(table, q, cast) && op.committed.None?
    requires Snapshot(d, table, [Condition(ID, IdParam(q))], cast, op.before)
    ensures Staged(d, op)
  {
    PinnedSnapshot(schema, d, table, [Condition(ID, IdParam(q))], IdParam(q), cast, op.before);
    var k := Key(table, cast(ID, IdParam(q)));
    assert k in d ==> Satisfies(d[k], Condition(ID, IdParam(q)), cast);
  }

  /** The first id filter has an operator, so the snapshot and the write agree on the id. */
  predicate PinsId(q: Query) {
    ID in q && q[ID] != [] && '.' in q[ID][0] && AfterDot(q[ID][0]) != ""
  }

  /**
   A staged UPDATE whose request filters with `id=<op>.<v>` is covered by its snapshot exactly when the row it
   writes is absent or satisfies every other condition of the request as well.
   */
  lemma UpdateIsCoveredIff(schema: Schema, d: Data, table: string, item: Row, q: Query, cast: Cast, op: Op)
    requires ValidData(schema, d) && PinsId(q) && !cast(ID, IdParam(q)).Null? && ID !in item
    requires op.stmt == StagedUpdate(table, item, q, cast) && op.committed.None?
    requires PatchSnapshot(d, table, q, cast, op.before)
    ensures var k := Key(table, cast(ID, IdParam(q)));
            Staged(d, op) <==> k in d ==> forall c :: IsCondition(q, c) ==> Satisfies(d[k], c, cast)
  {
    var k := Key(table, cast(ID, IdParam(q)));
    var pin := Condition(ID, IdParam(q));
    assert ID[0] != '_';
    CarriesIff(q[ID][0], IdParam(q));
    hide Carries;
    assert IsCondition(q, pin);
    var conditions :| (forall c :: c in conditions <==> IsCondition(q, c))
                      && Snapshot(d, table, conditions, cast, op.before);
    PinnedSnapshot(schema, d, table, conditions, IdParam(q), cast, op.before);
    assert Selected(d, table, conditions, cast, k) <==>
           k in d && forall c :: IsCondition(q, c) ==> Satisfies(d[k], c, cast);
  }

  /** With the single filter `id=<op>.<v>` there is no other condition: the snapshot is of exactly the written row. */
  lemma SingleIdIsCovered(schema: Schema, d: Data, table: string, item: Row, q: Query, cast: Cast, op: Op)
    requires ValidData(schema, d) && PinsId(q) && !cast(ID, IdParam(q)).Null? && ID !in item
    requires |q[ID]| == 1 && forall key :: key in q && key != ID ==> HasPrefix(key, "_")
    requires op.stmt == StagedUpdate(table, item, q, cast) && op.committed.None?
    requires PatchSnapshot(d, table, q, cast, op.before)
    ensures Staged(d, op)
  {
    hide Snapshot;
    hide Carries;
    var k := Key(table, cast(ID, IdParam(q)));
    assert ID[0] != '_';
    forall c | IsCondition(q, c) && k in d ensures Satisfies(d[k], c, cast) {
      OneValueCondition(q, c);
    }
    UpdateIsCoveredIff(schema, d, table, item, q, cast, op);
  }

  /** The rows a request's conditions select for the snapshot; none when it has no condition. */
  ghost predicate QuerySelects(d: Data, table: string, q: Query, cast: Cast, j: Key) {
    && !NoConditions(q) && j in d && j.table == table
    && forall c :: IsCondition(q, c) ==> Satisfies(d[j], c, cast)
  }

  /**
   For any request that names an id, with or without an operator and beside any other conditions: the snapshot covers
   the UPDATE exactly when the conditions select the written row and no other, or nothing at all if it is absent.
   */
  lemma CoveredIff(schema: Schema, d: Data, table: string, item: Row, q: Query, cast: Cast, op: Op)
    requires ValidData(schema, d) && IdParam(q) != "" && ID !in item
    requires op.stmt == StagedUpdate(table, item, q, cast) && op.committed.None?
    requires PatchSnapshot(d, table, q, cast, op.before)
    ensures var k := Key(table, cast(ID, IdParam(q)));
            Staged(d, op) <==> forall j :: QuerySelects(d, table, q, cast, j) <==> k in d && j == k
  {
    var k := Key(table, cast(ID, IdParam(q)));
    if !NoConditions(q) {
      var conditions :| (forall c :: c in conditions <==> IsCondition(q, c))
                        && Snapshot(d, table, conditions, cast, op.before);
      assert forall j :: QuerySelects(d, table, q, cast, j) <==> Selected(d, table, conditions, cast, j);
      assert forall j :: Selected(d, table, conditions, cast, j) <==> QuerySelects(d, table, q, cast, j);
      SnapshotIsOneRowIff(schema, d, table, conditions, cast, op.before, k);
    } else {
      assert !QuerySelects(d, table, q, cast, k);
    }
  }

  lemma SnapshotIsOneRowIff(schema: Schema, d: Data, table: string, conditions: seq<Condition>, cast: Cast,
                            before: Option<seq<Row>>, k: Key)
    requires ValidData(schema, d) && Snapshot(d, table, conditions, cast, before) && k.table == table
    ensures before == SnapshotOf(d, k) <==>
            forall j :: Selected(d, table, conditions, cast, j) <==> k in d && j == k
  {
    var keys: seq<Key> :|
      && (forall k :: k in keys <==> Selected(d, table, conditions, cast, k))
      && (forall i, j :: 0 <= i < j < |keys| ==> keys[i] != keys[j])
      && before == if keys == [] then None else Some(seq(|keys|, i requires 0 <= i < |keys| => RowAt(d, keys[i])));
    if before == SnapshotOf(d, k) {
      if k in d {
        assert |keys| == 1 && before.value[0] == RowAt(d, keys[0]) == d[k];
        assert keys[0] in keys;
        assert ValidRow(schema, keys[0], d[keys[0]]) && ValidRow(schema, k, d[k]);
        assert keys[0] == k;
      }
      forall j ensures Selected(d, table, conditions, cast, j) <==> k in d && j == k {
        assert j in keys <==> k in d && j == k;
      }
    }
    if forall j :: Selected(d, table, conditions, cast, j) <==> k in d && j == k {
      assert keys != [] ==> keys[0] in keys;
      forall i | 0 <= i < |keys| ensures keys[i] == k {
        assert keys[i] in keys;
      }
      if k in d {
        assert k in keys;
        OnlyOne(keys, k);
        assert |keys| == 1 && keys[0] == k;
        assert seq(|keys|, i requires 0 <= i < |keys| => RowAt(d, keys[i])) == [d[k]];
      } else {
        assert keys == [];
      }
    }
  }

  /** An UPDATE filtered by `id=<v>` without an operator writes the row but takes no snapshot of it. */
  lemma BareIdIsNotCovered(d: Data, table: string, item: Row, v: string, cast: Cast, op: Op)
    requires v != "" && '.' !in v && Key(table, cast(ID, v)) in d
    requires op.stmt == StagedUpdate(table, item, map[ID := [v]], cast)
    requires PatchSnapshot(d, table, map[ID := [v]], cast, op.before)
    ensures op.stmt == Update(table, item, Some(cast(ID, v))) && op.before.None? && !Staged(d, op)
  {
    var q: Query := map[ID := [v]];
    assert ID[0] != '_';
    forall c ensures !IsCondition(q, c) {
      if c.column == ID {
        OneValueCondition(q, c);
      }
    }
  }

  /** An insert, or a request for one id and nothing else that does not write the id. */
  ghost predicate OneRowRequest(req: Request, cast: Cast) {
    match req
    case Post(_) => true
    case Patch(item, q) =>
      && PinsId(q) && !cast(ID, IdParam(q)).Null? && ID !in item
      && |q[ID]| == 1 && forall key :: key in q && key != ID ==> HasPrefix(key, "_")
    case Remove(q) => IdParam(q) != "" && !cast(ID, IdParam(q)).Null?
  }

  /** Whatever such a request stages is covered by its snapshot. */
  lemma OneRowIsCovered(schema: Schema, d: Data, table: string, req: Request, cast: Cast, op: Op)
    requires ValidData(schema, d) && OneRowRequest(req, cast)
    requires Stages(d, table, req, cast, op.stmt, op.before, op.rowIds) && op.committed.None?
    ensures Staged(d, op)
  {
    match req
    case Post(_) =>
    case Patch(item, q) => SingleIdIsCovered(schema, d, table, item, q, cast, op);
    case Remove(q) => DeleteIsCovered(schema, d, table, q, cast, op);
  }
}
