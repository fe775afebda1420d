/**
 The reverse pass seen from one row. Every recorded operation names one row, so the pass over all the data
 is one independent pass per row.
 */
module RowUndo {
  import opened Wrappers
  import opened Rows
  import opened Saga

  /** The row an operation names, once its row id is recorded. */
  function KeyOf(op: Op): Key
    requires Named(op)
  {
    Key(op.stmt.table, if op.stmt.Insert? then op.rowIds.value[0] else op.stmt.id.value)
  }

  predicate Named(op: Op) {
    if op.stmt.Insert? then op.rowIds.Some? && |op.rowIds.value| == 1 else op.stmt.id.Some?
  }

  /** An operation as a commit leaves it: it names one row, and its snapshots are of that row. */
  ghost predicate Simple(schema: Schema, op: Op) {
    && op.stmt.table in schema
    && Named(op)
    && (op.stmt.Insert? ==> op.before.None?)
    && OneRow(schema, KeyOf(op), op.before)
    && OneRow(schema, KeyOf(op), op.committed)
  }

  ghost predicate OneRow(schema: Schema, k: Key, rows: Option<seq<Row>>) {
    rows.None? || (|rows.value| == 1 && ValidRow(schema, k, rows.value[0]))
  }

  ghost predicate AllSimple(schema: Schema, ops: seq<Op>) {
    forall i :: 0 <= i < |ops| ==> Simple(schema, ops[i])
  }

  /** Whether the conflict check refuses this row. */
  ghost predicate Conflicts(current: Option<Row>, committed: Row) {
    current.None? || !LooksLike(current.value, committed)
  }

  /** What undoing `op` does to its own row. */
  ghost function UndoRow(schema: Schema, cur: Option<Row>, op: Op, now: Value): Result<Option<Row>, Fault>
    requires Simple(schema, op)
  {
    match op.stmt
    case Insert(_, _) => Ok(None)
    case Update(_, _, _) =>
      if op.before.None? then Ok(cur)
      else if op.committed.Some? && Conflicts(cur, op.committed.value[0]) then
        Err(if cur.None? then RowGone else RowChanged)
      else if Restoring(op.before.value[0], now) == map[] then Err(BadStatement)
      else Ok(if cur.None? then None else Some(cur.value + Restoring(op.before.value[0], now)))
    case Delete(_, _) =>
      if op.before.None? then Ok(cur)
      else if cur.Some? then Err(DuplicateKey)
      else Ok(Some(op.before.value[0]))
  }

  lemma UndoOneRow(schema: Schema, d: Data, op: Op, clock: Clock)
    requires ValidData(schema, d) && Simple(schema, op)
    ensures var r := UndoOp(schema, d, op, clock);
            var row := UndoRow(schema, Lookup(d, KeyOf(op)), op, Now(clock, op.id));
            && (r.Err? <==> row.Err?)
            && (r.Err? ==> r.fault == row.fault)
            && (r.Ok? ==>
                  && ValidData(schema, r.value)
                  && Lookup(r.value, KeyOf(op)) == row.value
                  && forall k :: k != KeyOf(op) ==> Lookup(r.value, k) == Lookup(d, k))
  {
    var t := op.stmt.table;
    if op.before.None? {
      if op.stmt.Insert? {
        var ids := op.rowIds.value;
        assert DeleteAll(schema, d - {KeyOf(op)}, t, ids[1..]) == Ok(d - {KeyOf(op)});
      }
    } else {
      var rows := op.before.value;
      if op.stmt.Update? {
        if op.committed.Some? {
          var cs := op.committed.value;
          assert CheckAll(d, t, cs[1..]) == Ok(true);
          assert cs[0][ID] == op.stmt.id.value;
        }
        var sets := Restoring(rows[0], Now(clock, op.id));
        var next := Exec(schema, d, Update(t, sets, Some(rows[0][ID])), map[]);
        ExecKeepsValid(schema, d, Update(t, sets, Some(rows[0][ID])), map[]);
        if next.Ok? {
          assert RestoreAll(schema, next.value, t, rows[1..], Now(clock, op.id)) == next;
        }
      } else {
        assert InsertedRow(rows[0], map[]) == rows[0];
        var next := Exec(schema, d, Insert(t, rows[0]), map[]);
        if next.Ok? {
          assert ReinsertAll(schema, next.value, t, rows[1..]) == next;
        }
      }
    }
  }

  /** Undoing an UPDATE puts the snapshot back, but stamps the row with the time of the undo. */
  lemma UndoneUpdateIsStamped(schema: Schema, d: Data, op: Op, clock: Clock)
    requires ValidData(schema, d) && Simple(schema, op) && op.stmt.Update? && op.before.Some?
    ensures var r, k := UndoOp(schema, d, op, clock), KeyOf(op);
            r.Ok? && k in r.value ==>
              && SameButStamp(r.value[k], op.before.value[0])
              && (UPDATED_AT in r.value[k] && op.id in clock ==> r.value[k][UPDATED_AT] == clock[op.id])
  {
    hide UndoOp;
    UndoOneRow(schema, d, op, clock);
    var cur := Lookup(d, KeyOf(op));
    if cur.Some? {
      assert (cur.value + Restoring(op.before.value[0], Now(clock, op.id))).Keys == op.before.value[0].Keys;
    }
  }

  /** The reverse pass over the operations that name row `k`. */
  ghost function UndoRowAll(schema: Schema, cur: Option<Row>, ops: seq<Op>, k: Key, clock: Clock)
    : Result<Option<Row>, Fault>
    requires AllSimple(schema, ops)
  {
    if ops == [] then Ok(cur)
    else
      var later := UndoRowAll(schema, cur, ops[1..], k, clock);
      if later.Err? || KeyOf(ops[0]) != k then later
      else UndoRow(schema, later.value, ops[0], Now(clock, ops[0].id))
  }

  /** The pass over the data succeeds exactly when it succeeds on every row, and acts on each row alone. */
  lemma {:induction false} UndoRowByRow(schema: Schema, d: Data, ops: seq<Op>, clock: Clock)
    requires ValidData(schema, d) && AllSimple(schema, ops)
    ensures var r := UndoAll(schema, d, ops, clock);
            && (r.Ok? <==> forall k :: UndoRowAll(schema, Lookup(d, k), ops, k, clock).Ok?)
            && (r.Ok? ==>
                  && ValidData(schema, r.value)
                  && forall k :: UndoRowAll(schema, Lookup(d, k), ops, k, clock) == Ok(Lookup(r.value, k)))
  {
    if ops != [] {
      UndoRowByRow(schema, d, ops[1..], clock);
      var later := UndoAll(schema, d, ops[1..], clock);
      if later.Ok? {
        UndoOneRow(schema, later.value, ops[0], clock);
        var k := KeyOf(ops[0]);
        assert UndoRowAll(schema, Lookup(d, k), ops, k, clock)
            == UndoRow(schema, Lookup(later.value, k), ops[0], Now(clock, ops[0].id));
      } else {
        var k :| UndoRowAll(schema, Lookup(d, k), ops[1..], k, clock).Err?;
        assert UndoRowAll(schema, Lookup(d, k), ops, k, clock).Err?;
      }
    }
  }
}
