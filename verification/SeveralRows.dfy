/**
 The loops of the saga over operations whose snapshots list several rows, as a request with conditions beside a bare id
 takes them.
 */
module SeveralRows {
  import opened Wrappers
  import opened Rows
  import opened Saga

  /** Nothing is listed but the current rows of the snapshotted ids, each snapshot in its turn. */
  lemma {:induction false} CurrentRowsSplit(d: Data, table: string, a: seq<Row>, b: seq<Row>)
    ensures CurrentRows(d, table, a + b) == CurrentRows(d, table, a) + CurrentRows(d, table, b)
  {
    if a == [] {
      assert a + b == b;
    } else {
      assert (a + b)[1..] == a[1..] + b;
      CurrentRowsSplit(d, table, a[1..], b);
    }
  }

  /** The row a snapshot speaks of, if it has an id. */
  predicate SpeaksOf(table: string, snapshot: Row, k: Key) {
    k.table == table && ID in snapshot && snapshot[ID] == k.id
  }

  lemma CurrentRowOf(d: Data, table: string, snapshot: Row)
    ensures forall k :: SpeaksOf(table, snapshot, k) ==>
              CurrentRows(d, table, [snapshot]) == if k in d then [d[k]] else []
    ensures ID !in snapshot ==> CurrentRows(d, table, [snapshot]) == []
  {
    assert CurrentRows(d, table, [snapshot][1..]) == [];
  }

  /** The conflict check passes exactly when each recorded row with an id is there and looks as recorded. */
  lemma {:induction false} CheckAllIff(d: Data, table: string, committed: seq<Row>)
    ensures CheckAll(d, table, committed).Ok? <==>
            forall i, k :: 0 <= i < |committed| && SpeaksOf(table, committed[i], k) ==>
              k in d && LooksLike(d[k], committed[i])
  {
    if committed != [] {
      CheckAllIff(d, table, committed[1..]);
      assert forall i :: 0 < i < |committed| ==> committed[i] == committed[1..][i - 1];
      assert forall i :: 0 <= i < |committed[1..]| ==> committed[1..][i] == committed[i + 1];
      var first := committed[0];
      if ID in first {
        var k := Key(table, first[ID]);
        assert forall j :: SpeaksOf(table, first, j) <==> j == k;
      }
    }
  }

  /** The listed rows are gone, and no others. */
  lemma {:induction false} DeleteAllDoes(schema: Schema, d: Data, table: string, ids: seq<Value>)
    requires table in schema
    ensures DeleteAll(schema, d, table, ids).Ok?
    ensures forall k :: Lookup(DeleteAll(schema, d, table, ids).value, k)
                        == if k.table == table && k.id in ids then None else Lookup(d, k)
  {
    if ids != [] {
      DeleteAllDoes(schema, d - {Key(table, ids[0])}, table, ids[1..]);
    }
  }

  /** Snapshots of different rows of one table, as a database with ids delivers them. */
  ghost predicate RowsOf(schema: Schema, table: string, rows: seq<Row>) {
    && table in schema
    && (forall i :: 0 <= i < |rows| ==> ID in rows[i] && ValidRow(schema, Key(table, rows[i][ID]), rows[i]))
    && (forall i, j :: 0 <= i < j < |rows| ==> rows[i][ID] != rows[j][ID])
  }

  ghost predicate Among(rows: seq<Row>, table: string, k: Key) {
    exists i :: 0 <= i < |rows| && SpeaksOf(table, rows[i], k)
  }

  lemma RowsOfRest(schema: Schema, table: string, rows: seq<Row>, k: Key)
    requires RowsOf(schema, table, rows) && rows != []
    ensures RowsOf(schema, table, rows[1..])
    ensures SpeaksOf(table, rows[0], k) ==> !Among(rows[1..], table, k)
    ensures Among(rows, table, k) <==> SpeaksOf(table, rows[0], k) || Among(rows[1..], table, k)
    ensures forall i :: 0 < i < |rows| ==> rows[i] == rows[1..][i - 1]
  {
    assert forall i :: 0 < i < |rows| ==> rows[i] == rows[1..][i - 1];
    assert forall i :: 0 <= i < |rows[1..]| ==> rows[1..][i] == rows[i + 1];
  }

  lemma RestoreOne(schema: Schema, d: Data, table: string, rows: seq<Row>, now: Value) returns (next: Data)
    requires ValidData(schema, d) && RowsOf(schema, table, rows) && rows != []
    requires exists c :: c in schema[table] && c != ID
    ensures RestoreAll(schema, d, table, rows, now) == RestoreAll(schema, next, table, rows[1..], now)
    ensures ValidData(schema, next)
    ensures forall k :: Lookup(next, k) ==
                        if SpeaksOf(table, rows[0], k) && k in d then Some(d[k] + Restoring(rows[0], now))
                        else Lookup(d, k)
  {
    var row := rows[0];
    var c :| c in schema[table] && c != ID;
    assert c in Restoring(row, now);
    var stmt := Update(table, Restoring(row, now), Some(row[ID]));
    ExecKeepsValid(schema, d, stmt, map[]);
    next := Exec(schema, d, stmt, map[]).value;
  }

  /** Each snapshotted row that still exists gets its columns back, and no other row is changed. */
  lemma {:induction false} RestoreAllDoes(schema: Schema, d: Data, table: string, rows: seq<Row>, now: Value, k: Key)
    requires ValidData(schema, d) && RowsOf(schema, table, rows) && (exists c :: c in schema[table] && c != ID)
    decreases |rows|
    ensures var r := RestoreAll(schema, d, table, rows, now);
            && r.Ok?
            && (forall i :: 0 <= i < |rows| && SpeaksOf(table, rows[i], k) ==>
                  Lookup(r.value, k) == if k in d then Some(d[k] + Restoring(rows[i], now)) else None)
            && (!Among(rows, table, k) ==> Lookup(r.value, k) == Lookup(d, k))
  {
    if rows != [] {
      var next := RestoreOne(schema, d, table, rows, now);
      RowsOfRest(schema, table, rows, k);
      hide RowsOf;
      hide Among;
      hide RestoreAll;
      hide ValidData;
      hide Restoring;
      RestoreAllDoes(schema, next, table, rows[1..], now, k);
      assert Lookup(next, k) == if SpeaksOf(table, rows[0], k) && k in d then Some(d[k] + Restoring(rows[0], now))
                                else Lookup(d, k);
      forall i | 0 < i < |rows| && SpeaksOf(table, rows[i], k) ensures !SpeaksOf(table, rows[0], k) {
        AmongAt(rows[1..], table, k, i - 1);
      }
    }
  }

  lemma AmongAt(rows: seq<Row>, table: string, k: Key, i: nat)
    requires i < |rows| && SpeaksOf(table, rows[i], k)
    ensures Among(rows, table, k)
  {
  }

  /** Every snapshotted row is back as it was, and no other row is changed; it fails exactly when an id is taken. */
  lemma {:induction false} ReinsertAllDoes(schema: Schema, d: Data, table: string, rows: seq<Row>, k: Key)
    requires ValidData(schema, d) && RowsOf(schema, table, rows)
    decreases |rows|
    ensures var r := ReinsertAll(schema, d, table, rows);
            && (r.Ok? <==> forall i :: 0 <= i < |rows| ==> Key(table, rows[i][ID]) !in d)
            && (r.Ok? ==>
                  && (forall i :: 0 <= i < |rows| && SpeaksOf(table, rows[i], k) ==>
                        Lookup(r.value, k) == Some(rows[i]))
                  && (!Among(rows, table, k) ==> Lookup(r.value, k) == Lookup(d, k)))
  {
    if rows != [] {
      var k0 := Key(table, rows[0][ID]);
      assert InsertedRow(rows[0], map[]) == rows[0];
      RowsOfRest(schema, table, rows, k);
      if k0 !in d {
        var next := d[k0 := rows[0]];
        assert Exec(schema, d, Insert(table, rows[0]), map[]) == Ok(next);
        hide Exec;
        ReinsertAllDoes(schema, next, table, rows[1..], k);
        assert forall i :: 0 < i < |rows| ==> (Key(table, rows[i][ID]) !in next <==> Key(table, rows[i][ID]) !in d);
      }
    }
  }
}
