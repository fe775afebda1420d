/**
 The two passes of a staged transaction over the business data: the forward pass of a commit, with what it
 records on the way, and the reverse pass of a rollback after commit.
 */
module Saga {
  import opened Wrappers
  import opened Rows

  /** A row of `rest_transaction_operations`. `None` is SQL NULL. */
  datatype Op = Op(
    id: nat,
    tx: string,
    stmt: Stmt,
    before: Option<seq<Row>>,
    committed: Option<seq<Row>>,
    rowIds: Option<seq<Value>>)

  /** What the databases decide during a commit: column defaults, and which record-keeping writes are lost. */
  datatype Env = Env(defaults: map<nat, Row>, lostIds: set<nat>, lostStates: set<nat>) {
    function Defaults(op: nat): Row {
      if op in defaults then defaults[op] else map[]
    }
  }

  /** The time read while undoing each operation. */
  type Clock = map<nat, Value>

  function Now(clock: Clock, op: nat): Value {
    if op in clock then clock[op] else Null
  }

  // ----- forward pass

  /** One staged operation in the target transaction; an INSERT also scans its id into an integer. */
  function Step(schema: Schema, d: Data, op: Op, env: Env): Result<Data, Fault> {
    var r := Exec(schema, d, op.stmt, env.Defaults(op.id));
    if r.Ok? && op.stmt.Insert? && !InsertedId(op, env).Number? then Err(UnscannableId) else r
  }

  function InsertedId(op: Op, env: Env): Value
    requires op.stmt.Insert?
  {
    var row := InsertedRow(op.stmt.values, env.Defaults(op.id));
    if ID in row then row[ID] else Null
  }

  /** The operation after its row id was written back, which may silently fail. */
  function NoteId(op: Op, env: Env): Op {
    if op.stmt.Insert? && op.id !in env.lostIds then op.(rowIds := Some([InsertedId(op, env)])) else op
  }

  /** Data and operations after running `ops` in order from `d`. */
  datatype Applied = Applied(data: Data, ops: seq<Op>)

  function Forward(schema: Schema, d: Data, ops: seq<Op>, env: Env): Result<Applied, Fault>
    decreases |ops|
  {
    if ops == [] then Ok(Applied(d, []))
    else
      var next :- Step(schema, d, ops[0], env);
      var rest :- Forward(schema, next, ops[1..], env);
      Ok(Applied(rest.data, [NoteId(ops[0], env)] + rest.ops))
  }

  /** The current rows of the snapshotted ids that still exist. */
  function CurrentRows(d: Data, table: string, snapshots: seq<Row>): seq<Row> {
    if snapshots == [] then []
    else
      var rest := CurrentRows(d, table, snapshots[1..]);
      if ID in snapshots[0] && Key(table, snapshots[0][ID]) in d
      then [d[Key(table, snapshots[0][ID])]] + rest
      else rest
  }

  /** The operation after the committed state was recorded, which may silently fail. */
  function NoteState(d: Data, op: Op, env: Env): Op {
    if op.before.None? || op.id in env.lostStates then op
    else
      var rows := CurrentRows(d, op.stmt.table, op.before.value);
      if rows == [] then op else op.(committed := Some(rows))
  }

  function NoteStates(d: Data, ops: seq<Op>, env: Env): seq<Op> {
    if ops == [] then [] else [NoteState(d, ops[0], env)] + NoteStates(d, ops[1..], env)
  }

  // ----- reverse pass

  /** What a rolled-back UPDATE sets: every column of the snapshot but the id, and a new `updated_at`. */
  function Restoring(snapshot: Row, now: Value): Row {
    map c | c in snapshot && c != ID :: if c == UPDATED_AT then now else snapshot[c]
  }

  lemma RestoringIs(snapshot: Row, now: Value)
    ensures var sets := Restoring(snapshot, now);
            && sets.Keys == snapshot.Keys - {ID}
            && (UPDATED_AT in sets ==> sets[UPDATED_AT] == now)
            && forall c :: c in sets && c != UPDATED_AT ==> sets[c] == snapshot[c]
  {
  }

  function DeleteAll(schema: Schema, d: Data, table: string, ids: seq<Value>): Result<Data, Fault> {
    if ids == [] then Ok(d)
    else
      var next :- Exec(schema, d, Delete(table, Some(ids[0])), map[]);
      DeleteAll(schema, next, table, ids[1..])
  }

  function CheckRow(d: Data, table: string, committed: Row): Result<bool, Fault> {
    if ID !in committed then Ok(true)
    else if Key(table, committed[ID]) !in d then Err(RowGone)
    else
      var current := d[Key(table, committed[ID])];
      if forall c | c in committed && c != UPDATED_AT :: c in current && current[c].Render() == committed[c].Render()
      then Ok(true)
      else Err(RowChanged)
  }

  function CheckAll(d: Data, table: string, committed: seq<Row>): Result<bool, Fault> {
    if committed == [] then Ok(true)
    else
      var _ :- CheckRow(d, table, committed[0]);
      CheckAll(d, table, committed[1..])
  }

  function RestoreAll(schema: Schema, d: Data, table: string, snapshots: seq<Row>, now: Value): Result<Data, Fault> {
    if snapshots == [] then Ok(d)
    else if ID !in snapshots[0] then RestoreAll(schema, d, table, snapshots[1..], now)
    else
      var next :- Exec(schema, d, Update(table, Restoring(snapshots[0], now), Some(snapshots[0][ID])), map[]);
      RestoreAll(schema, next, table, snapshots[1..], now)
  }

  function ReinsertAll(schema: Schema, d: Data, table: string, snapshots: seq<Row>): Result<Data, Fault>
    decreases |snapshots|
  {
    if snapshots == [] then Ok(d)
    else
      var next :- Exec(schema, d, Insert(table, snapshots[0]), map[]);
      ReinsertAll(schema, next, table, snapshots[1..])
  }

  /** Compensates one operation. */
  function UndoOp(schema: Schema, d: Data, op: Op, clock: Clock): Result<Data, Fault> {
    var t := op.stmt.table;
    if op.before.None? then
      if !op.stmt.Insert? then Ok(d)
      else if op.rowIds.None? then Err(NoRowIds)
      else DeleteAll(schema, d, t, op.rowIds.value)
    else
      match op.stmt
      case Insert(_, _) => Ok(d)
      case Update(_, _, _) =>
        var _ :- if op.committed.Some? then CheckAll(d, t, op.committed.value) else Ok(true);
        RestoreAll(schema, d, t, op.before.value, Now(clock, op.id))
      case Delete(_, _) => ReinsertAll(schema, d, t, op.before.value)
  }

  /** Compensates all operations, the last one first. */
  function UndoAll(schema: Schema, d: Data, ops: seq<Op>, clock: Clock): Result<Data, Fault> {
    if ops == [] then Ok(d)
    else
      var later :- UndoAll(schema, d, ops[1..], clock);
      UndoOp(schema, later, ops[0], clock)
  }

  lemma {:induction false} UndoAllLastFirst(schema: Schema, d: Data, ops: seq<Op>, last: Op, clock: Clock)
    ensures UndoAll(schema, d, ops + [last], clock) ==
            var r := UndoOp(schema, d, last, clock);
            if r.Err? then r else UndoAll(schema, r.value, ops, clock)
  {
    if ops == [] {
      assert (ops + [last])[1..] == [];
      assert UndoAll(schema, d, [], clock) == Ok(d);
    } else {
      assert (ops + [last])[1..] == ops[1..] + [last];
      UndoAllLastFirst(schema, d, ops[1..], last, clock);
    }
  }
}
