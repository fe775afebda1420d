/** Business data: rows keyed by table and id, and the statements that change them. */
module Rows {
  import opened Wrappers
  import Decimal

  /**
   A column value, with the text that Go's `%v` gives it. Numbers are whole and small enough for JSON to carry
   them exactly.
   */
  datatype Value = Null | Text(s: string) | Number(n: int) | Flag(b: bool) {
    function Render(): string {
      match this
      case Null => "<nil>"
      case Text(s) => s
      case Number(n) => Decimal.Show(n)
      case Flag(b) => if b then "true" else "false"
    }
  }

  type Row = map<string, Value>
  datatype Key = Key(table: string, id: Value)
  type Data = map<Key, Row>

  /** The columns of every table. */
  type Schema = map<string, set<string>>

  const ID := "id"
  const UPDATED_AT := "updated_at"

  function Lookup(d: Data, k: Key): Option<Row> {
    if k in d then Some(d[k]) else None
  }

  /** Every row has exactly its table's columns and is stored under its own id. */
  ghost predicate ValidRow(schema: Schema, k: Key, r: Row) {
    k.table in schema && r.Keys == schema[k.table] && ID in r && r[ID] == k.id
  }

  ghost predicate ValidData(schema: Schema, d: Data) {
    forall k :: k in d ==> ValidRow(schema, k, d[k])
  }

  /** Equality of rows in every column but `updated_at`. */
  ghost predicate SameButStamp(a: Row, b: Row) {
    a.Keys == b.Keys && forall c :: c in a && c != UPDATED_AT ==> a[c] == b[c]
  }

  ghost predicate SameRow(a: Option<Row>, b: Option<Row>) {
    (a.None? && b.None?) || (a.Some? && b.Some? && SameButStamp(a.value, b.value))
  }

  /** The comparison the conflict check makes: every expected column but `updated_at`, as rendered text. */
  ghost predicate LooksLike(current: Row, expected: Row) {
    forall c :: c in expected && c != UPDATED_AT ==> c in current && current[c].Render() == expected[c].Render()
  }

  // ----- what the comparison can tell apart

  datatype Kind = TextKind | NumberKind | FlagKind

  /** The type of each column, by table and name. */
  type Types = (string, string) -> Kind

  /** A column holds NULL or a value of its type. */
  predicate Fits(v: Value, kind: Kind) {
    match v
    case Null => true
    case Text(_) => kind == TextKind
    case Number(_) => kind == NumberKind
    case Flag(_) => kind == FlagKind
  }

  ghost predicate TypedRow(types: Types, table: string, r: Row) {
    forall c :: c in r ==> Fits(r[c], types(table, c))
  }

  ghost predicate TypedData(types: Types, d: Data) {
    forall k :: k in d ==> TypedRow(types, k.table, d[k])
  }

  /** NULL and the text `<nil>`, which print the same. */
  predicate NilPair(a: Value, b: Value) {
    (a == Null && b == Text("<nil>")) || (a == Text("<nil>") && b == Null)
  }

  /** Two values of one column print the same exactly when they are equal, or are NULL and the text `<nil>`. */
  lemma RenderCollidesIff(a: Value, b: Value, kind: Kind)
    requires Fits(a, kind) && Fits(b, kind)
    ensures a.Render() == b.Render() <==> a == b || NilPair(a, b)
  {
    if a.Number? && b.Number? && a.Render() == b.Render() {
      Decimal.ShowInjective(a.n, b.n);
    }
    if a.Number? {
      NumberIsNotNil(a.n);
    }
    if b.Number? {
      NumberIsNotNil(b.n);
    }
  }

  lemma NumberIsNotNil(n: int)
    ensures Decimal.Show(n) != "<nil>"
  {
    var digits := Decimal.ShowNat(if n < 0 then -n else n);
    assert Decimal.IsDigit(digits[0]);
    assert Decimal.Show(n)[0] != '<';
  }

  /** So the check takes two rows for the same exactly when they differ in such pairs and in `updated_at` only. */
  lemma LooksLikeIff(types: Types, table: string, current: Row, expected: Row)
    requires TypedRow(types, table, current) && TypedRow(types, table, expected) && expected.Keys <= current.Keys
    ensures LooksLike(current, expected) <==>
            forall c :: c in expected && c != UPDATED_AT ==>
              current[c] == expected[c] || NilPair(current[c], expected[c])
  {
    forall c | c in expected
      ensures current[c].Render() == expected[c].Render() <==>
              current[c] == expected[c] || NilPair(current[c], expected[c]) {
      RenderCollidesIff(current[c], expected[c], types(table, c));
    }
  }

  /** The three statements a transaction stages. `None` for an id: the request named no row. */
  datatype Stmt =
    | Insert(table: string, values: Row)
    | Update(table: string, sets: Row, id: Option<Value>)
    | Delete(table: string, id: Option<Value>)

  datatype Fault =
    | BadStatement
    | DuplicateKey
    | UnscannableId
    | UnboundParameter
    | NoRowIds
    | RowChanged
    | RowGone
    | WrongStatus
    | DuplicateTransaction

  /** The row an INSERT stores: the given values, and the database's choice for every other column. */
  function InsertedRow(values: Row, defaults: Row): Row {
    defaults + values
  }

  /** One statement inside an open database transaction. */
  function Exec(schema: Schema, d: Data, stmt: Stmt, defaults: Row): Result<Data, Fault> {
    match stmt
    case Insert(t, values) =>
      var row := InsertedRow(values, defaults);
      if values == map[] || t !in schema || row.Keys != schema[t] || ID !in row then Err(BadStatement)
      else if Key(t, row[ID]) in d then Err(DuplicateKey)
      else Ok(d[Key(t, row[ID]) := row])
    case Update(t, sets, id) =>
      if id.None? then Err(UnboundParameter)
      else if sets == map[] || t !in schema || !(sets.Keys <= schema[t]) then Err(BadStatement)
      else if Key(t, id.value) !in d then Ok(d)
      else
        var row := d[Key(t, id.value)] + sets;
        var moved := Key(t, if ID in sets then sets[ID] else id.value);
        if moved != Key(t, id.value) && moved in d then Err(DuplicateKey)
        else Ok((d - {Key(t, id.value)})[moved := row])
    case Delete(t, id) =>
      if id.None? then Err(UnboundParameter)
      else if t !in schema then Err(BadStatement)
      else Ok(d - {Key(t, id.value)})
  }

  lemma ExecKeepsValid(schema: Schema, d: Data, stmt: Stmt, defaults: Row)
    requires ValidData(schema, d)
    ensures Exec(schema, d, stmt, defaults).Ok? ==> ValidData(schema, Exec(schema, d, stmt, defaults).value)
  {
  }

  /** An INSERT stores a new row with the values given, and an UPDATE of the id's row keeps what it does not set. */
  lemma InsertStores(schema: Schema, d: Data, table: string, values: Row, defaults: Row) returns (k: Key)
    requires Exec(schema, d, Insert(table, values), defaults).Ok?
    ensures var next := Exec(schema, d, Insert(table, values), defaults).value;
            && k.table == table && k !in d && k in next && ID in next[k] && next[k][ID] == k.id
            && (forall c :: c in next[k] <==> c in values || c in defaults)
            && (forall c :: c in next[k] ==> next[k][c] == if c in values then values[c] else defaults[c])
            && forall j :: j != k ==> Lookup(next, j) == Lookup(d, j)
  {
    k := Key(table, InsertedRow(values, defaults)[ID]);
  }

  lemma UpdateSets(schema: Schema, d: Data, table: string, sets: Row, id: Value, defaults: Row)
    requires Exec(schema, d, Update(table, sets, Some(id)), defaults).Ok? && ID !in sets
    ensures var k, next := Key(table, id), Exec(schema, d, Update(table, sets, Some(id)), defaults).value;
            && (k in next <==> k in d)
            && (k in d ==>
                  && (forall c :: c in next[k] <==> c in d[k] || c in sets)
                  && (forall c :: c in next[k] ==> next[k][c] == if c in sets then sets[c] else d[k][c]))
            && forall j :: j != k ==> Lookup(next, j) == Lookup(d, j)
  {
  }
}
